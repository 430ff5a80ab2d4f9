/** Transactions, their cursor chains and the four record operations of
    bdbimpl.c (get, getNext, insertRecord, deleteRecord) over the stored
    pairs of an index. Every Berkeley DB call that can fail is given its
    outcome as a parameter: none, a deadlock, or any other error. */
module Access {
  import opened Bytes
  import opened Wrappers
  import opened Api
  import opened KeyCodec
  import opened Store
  import opened Catalogue
  import opened Seqs

  /** The outcome of one Berkeley DB call. */
  datatype Fault = NoFault | LockDeadlock | OtherError

  /** The interface code a failed Berkeley DB call is reported as. */
  function FaultCode(f: Fault): (r: ErrCode)
    requires f != NoFault
    ensures r == Deadlock <==> f == LockDeadlock
    ensures r == Deadlock || r == Failure
  {
    if f == LockDeadlock then Deadlock else Failure
  }

  /** The code a call that ends a transaction returns. */
  function EndCode(f: Fault): (r: ErrCode)
    ensures r == Success <==> f == NoFault
  {
    if f == NoFault then Success else FaultCode(f)
  }

  /** The outcomes of the Berkeley DB calls behind one interface call:
      setting up the environment when there is none, beginning a
      transaction of its own (and the id it gets), creating a cursor, the
      read or write itself, deleting under the cursor, and committing its
      own transaction. */
  datatype Outcomes = Outcomes(setup: EnvSetup, begin: Fault, newTid: nat, cursor: Fault, access: Fault,
                               remove: Fault, end: Fault)

  /** How beginTransaction fails, if it does: the environment it had to
      set up could not be (FAILURE), or txn_begin failed. */
  function BeginFault(ready: bool, setup: EnvSetup, begin: Fault): (f: Fault)
    ensures f == NoFault <==> (ready || setup == EnvOk) && begin == NoFault
  {
    if !ready && setup != EnvOk then OtherError else begin
  }

  /** One node of a transaction's cursor chain (CursorLink): the index it
      belongs to and where the cursor stands. */
  datatype CursorLink = CursorLink(db: Database, pos: Position)

  /** A transaction (TXNState): its Berkeley DB id, none once the handle is
      gone, and the chain of cursors it opened. */
  class Txn {
    var tid: Option<nat>
    var chain: seq<CursorLink>

    constructor (id: nat)
      ensures tid == Some(id) && chain == [] && Valid()
    {
      tid := Some(id);
      chain := [];
    }

    /** At most one cursor per index. */
    predicate Valid()
      reads this
    {
      forall i, j :: 0 <= i < j < |chain| ==> chain[i].db != chain[j].db
    }
  }

  /** The position in a chain of the cursor for `db`, or the length of the
      chain when it has none. */
  function CursorIndex(chain: seq<CursorLink>, db: Database): (i: nat)
    ensures i <= |chain|
    ensures i < |chain| ==> chain[i].db == db
    ensures forall j :: 0 <= j < i ==> chain[j].db != db
  {
    FirstWhere(chain, (c: CursorLink) => c.db == db)
  }

  /** The chain after p_prepTxnCursor has made sure `db` has a cursor. */
  function Prepared(chain: seq<CursorLink>, db: Database): (c: seq<CursorLink>)
    ensures CursorIndex(chain, db) < |c| && c[CursorIndex(chain, db)].db == db
  {
    if CursorIndex(chain, db) < |chain| then chain else chain + [CursorLink(db, Unset)]
  }

  /** The chain an interface call starts from: the caller's transaction's,
      or the empty chain of a transaction of its own. */
  function ChainOf(txn: Txn?): seq<CursorLink>
    reads txn
  {
    if txn == null then [] else txn.chain
  }

  /** p_prepTxnCursor succeeds: a transaction of its own could begin, and a
      cursor exists for the index or could be created. */
  predicate PrepOk(ready: bool, txn: Txn?, chain: seq<CursorLink>, db: Database, o: Outcomes)
  {
    && (txn == null ==> BeginFault(ready, o.setup, o.begin) == NoFault)
    && (CursorIndex(chain, db) < |chain| || o.cursor == NoFault)
  }

  /** p_prepTxnCursor reaches the point where it creates a cursor for the
      index, clearing the index's miss flag. */
  predicate NewCursor(ready: bool, txn: Txn?, chain: seq<CursorLink>, db: Database, o: Outcomes)
  {
    (txn != null || BeginFault(ready, o.setup, o.begin) == NoFault) && CursorIndex(chain, db) == |chain|
  }

  /** The code p_prepTxnCursor reports when it fails. */
  function PrepCode(ready: bool, txn: Txn?, o: Outcomes): ErrCode
  {
    var f := BeginFault(ready, o.setup, o.begin);
    if txn == null && f != NoFault then FaultCode(f) else Failure
  }

  /** The payload buffer of a record (`MAX_PAYLOAD_LEN + 1` bytes) after
      `memset(payload, 0, MAX_PAYLOAD_LEN)`. */
  function Blanked(p: seq<byte>): (q: seq<byte>)
    requires |p| == MAX_PAYLOAD_LEN + 1
    ensures |q| == |p| && IsNullPayload(q) && q[MAX_PAYLOAD_LEN] == p[MAX_PAYLOAD_LEN]
  {
    Zeros(MAX_PAYLOAD_LEN) + p[MAX_PAYLOAD_LEN..]
  }

  /** The payload buffer after the stored data is copied in, at most
      MAX_PAYLOAD_LEN bytes of it. */
  function CopyOut(p: seq<byte>, d: seq<byte>): (q: seq<byte>)
    requires |p| == MAX_PAYLOAD_LEN + 1
    ensures |q| == |p|
    ensures forall i :: 0 <= i < |d| && i < MAX_PAYLOAD_LEN ==> q[i] == d[i]
  {
    var m := Min(|d|, MAX_PAYLOAD_LEN);
    d[..m] + p[m..]
  }

  /** A payload stored by insertRecord reads back through get or getNext as
      the same C string, provided the string leaves room for its NUL or the
      buffer's last byte is already NUL. */
  lemma LemmaPayloadRoundTrip(buffer: seq<byte>, payload: seq<byte>)
    requires |buffer| == MAX_PAYLOAD_LEN + 1
    requires StrLen(payload) < MAX_PAYLOAD_LEN || (StrLen(payload) == MAX_PAYLOAD_LEN && buffer[MAX_PAYLOAD_LEN] == 0)
    ensures CString(CopyOut(buffer, StoredPayload(payload))) == CString(payload)
  {
    var c, q := CString(payload), CopyOut(buffer, StoredPayload(payload));
    var n := |c|;
    assert StoredPayload(payload) == c + [0];
    assert q[n] == 0;
    assert q[..n] == c;
    LemmaStrLenAt(q, n);
  }

  lemma LemmaStrLenAt(s: seq<byte>, n: nat)
    requires n < |s| && s[n] == 0 && forall i :: 0 <= i < n ==> s[i] != 0
    ensures StrLen(s) == n
  {
  }

  // ---------------------------------------------------------------------
  // Transactions.

  /** beginTransaction: set up the environment if there is none and begin
      a transaction with an empty cursor chain. */
  method BeginTransaction(env: Environment, setup: EnvSetup, f: Fault, id: nat) returns (r: ErrCode, txn: Txn?)
    modifies env`ready
    ensures var g := BeginFault(old(env.ready), setup, f);
      && (g == NoFault ==>
            r == Success && txn != null && fresh(txn) && txn.Valid() && txn.tid == Some(id) && txn.chain == [])
      && (g != NoFault ==> r == FaultCode(g) && txn == null)
    ensures env.ready == (old(env.ready) || setup != EnvCreateFails)
  {
    if !env.ready {
      r := env.CreateEnv(setup);
      if r != Success {
        return r, null;
      }
    }
    if f != NoFault {
      return FaultCode(f), null;
    }
    txn := new Txn(id);
    r := Success;
  }

  /** The outcome of closing the k-th cursor of a chain. */
  function CloseFault(closeFaults: seq<Fault>, k: nat): Fault
  {
    if k < |closeFaults| then closeFaults[k] else NoFault
  }

  /** How many cursors of a chain of n close before the first failure. */
  function ClosedBefore(closeFaults: seq<Fault>, n: nat, k: nat): (c: nat)
    requires k <= n
    ensures k <= c <= n
    ensures forall j :: k <= j < c ==> CloseFault(closeFaults, j) == NoFault
    ensures c < n ==> CloseFault(closeFaults, c) != NoFault
    decreases n - k
  {
    if k == n || CloseFault(closeFaults, k) != NoFault then k
    else ClosedBefore(closeFaults, n, k + 1)
  }

  /** The drain loop of commitTransaction and abortTransaction: close the
      cursors from the head of the chain, unlinking each, and stop at the
      first close that fails. */
  method DrainCursors(txn: Txn, closeFaults: seq<Fault>) returns (r: ErrCode)
    modifies txn`chain
    ensures var k := ClosedBefore(closeFaults, |old(txn.chain)|, 0);
      && (k < |old(txn.chain)| ==> r == FaultCode(CloseFault(closeFaults, k)) && txn.chain == old(txn.chain)[k..])
      && (k == |old(txn.chain)| ==> r == Success && txn.chain == [])
  {
    var i := 0;
    while txn.chain != []
      invariant i <= |old(txn.chain)|
      invariant txn.chain == old(txn.chain)[i..]
      invariant forall j :: 0 <= j < i ==> CloseFault(closeFaults, j) == NoFault
      decreases |txn.chain|
    {
      var f := CloseFault(closeFaults, i);
      if f != NoFault {
        LemmaClosedBefore(closeFaults, |old(txn.chain)|, i);
        return FaultCode(f);
      }
      txn.chain := txn.chain[1..];
      i := i + 1;
    }
    LemmaClosedBefore(closeFaults, |old(txn.chain)|, i);
    r := Success;
  }

  lemma LemmaClosedBefore(closeFaults: seq<Fault>, n: nat, i: nat)
    requires i <= n
    requires forall j :: 0 <= j < i ==> CloseFault(closeFaults, j) == NoFault
    requires i < n ==> CloseFault(closeFaults, i) != NoFault
    ensures ClosedBefore(closeFaults, n, 0) == i
  {
  }

  /** commitTransaction: a transaction without an id is refused; otherwise
      the cursors are closed and the transaction committed. */
  method CommitTransaction(env: Environment, txn: Txn, closeFaults: seq<Fault>, endFault: Fault) returns (r: ErrCode)
    modifies txn`chain
    ensures txn.tid.None? ==> r == TxnDne && txn.chain == old(txn.chain)
    ensures txn.tid.Some? && !env.ready ==> r == Failure && txn.chain == old(txn.chain)
    ensures txn.tid.Some? && env.ready ==>
      var k := ClosedBefore(closeFaults, |old(txn.chain)|, 0);
      && (k < |old(txn.chain)| ==> r == FaultCode(CloseFault(closeFaults, k)) && txn.chain == old(txn.chain)[k..])
      && (k == |old(txn.chain)| ==> r == EndCode(endFault) && txn.chain == [])
  {
    if txn.tid.None? {
      return TxnDne;
    }
    if !env.ready {
      return Failure;
    }
    r := DrainCursors(txn, closeFaults);
    if r == Success {
      r := EndCode(endFault);
    }
  }

  /** abortTransaction: the same checks and drain as commitTransaction,
      then the transaction is aborted. */
  method AbortTransaction(env: Environment, txn: Txn, closeFaults: seq<Fault>, endFault: Fault) returns (r: ErrCode)
    modifies txn`chain
    ensures txn.tid.None? ==> r == TxnDne && txn.chain == old(txn.chain)
    ensures txn.tid.Some? && !env.ready ==> r == Failure && txn.chain == old(txn.chain)
    ensures txn.tid.Some? && env.ready ==>
      var k := ClosedBefore(closeFaults, |old(txn.chain)|, 0);
      && (k < |old(txn.chain)| ==> r == FaultCode(CloseFault(closeFaults, k)) && txn.chain == old(txn.chain)[k..])
      && (k == |old(txn.chain)| ==> r == EndCode(endFault) && txn.chain == [])
  {
    if txn.tid.None? {
      return TxnDne;
    }
    if !env.ready {
      return Failure;
    }
    r := DrainCursors(txn, closeFaults);
    if r == Success {
      r := EndCode(endFault);
    }
  }

  /** The cursor walk of p_prepTxnCursor: the first link of the chain for
      the index, or the end of the chain. */
  method FindCursor(txn: Txn, db: Database) returns (i: nat)
    ensures i == CursorIndex(txn.chain, db)
  {
    i := 0;
    while i < |txn.chain| && txn.chain[i].db != db
      invariant i <= |txn.chain|
      invariant forall j :: 0 <= j < i ==> txn.chain[j].db != db
    {
      i := i + 1;
    }
    LemmaCursorIndex(txn.chain, db, i);
  }

  lemma LemmaCursorIndex(chain: seq<CursorLink>, db: Database, i: nat)
    requires i <= |chain|
    requires i < |chain| ==> chain[i].db == db
    requires forall j :: 0 <= j < i ==> chain[j].db != db
    ensures i == CursorIndex(chain, db)
  {
  }

  /** Appending a cursor for an index that has none keeps one per index. */
  lemma LemmaPreparedValid(chain: seq<CursorLink>, db: Database)
    requires forall i, j :: 0 <= i < j < |chain| ==> chain[i].db != chain[j].db
    ensures var c := Prepared(chain, db);
      forall i, j :: 0 <= i < j < |c| ==> c[i].db != c[j].db
  {
  }

  /** p_prepTxnCursor: use the caller's transaction or begin one of its own,
      then reuse the transaction's cursor for the index or append a new one
      at the end of the chain, clearing the index's miss flag; finally
      record the transaction id in the index state. */
  method PrepTxnCursor(env: Environment, state: IndexState, txn: Txn?, o: Outcomes)
      returns (r: ErrCode, t: Txn?, i: nat)
    requires state.dbp != null
    requires txn != null ==> txn.Valid() && txn.tid.Some?
    modifies env`ready, state`keyNotFound, state`tid, txn
    ensures env.ready == (old(env.ready) || (txn == null && o.setup != EnvCreateFails))
    ensures txn != null ==> t == txn
    ensures txn == null && BeginFault(old(env.ready), o.setup, o.begin) == NoFault ==>
      t != null && fresh(t) && t.tid == Some(o.newTid)
    ensures txn == null && BeginFault(old(env.ready), o.setup, o.begin) != NoFault ==> t == null
    ensures txn != null ==> txn.tid == old(txn.tid)
    ensures t != null ==> t.Valid()
    ensures PrepOk(old(env.ready), txn, old(ChainOf(txn)), state.dbp, o) ==>
      && r == Success && t != null
      && t.chain == Prepared(old(ChainOf(txn)), state.dbp)
      && i == CursorIndex(old(ChainOf(txn)), state.dbp)
      && state.tid == t.tid.value
    ensures !PrepOk(old(env.ready), txn, old(ChainOf(txn)), state.dbp, o) ==>
      r == PrepCode(old(env.ready), txn, o) && (t != null ==> t.chain == old(ChainOf(txn)))
      && state.tid == old(state.tid)
    ensures state.keyNotFound == (old(state.keyNotFound) && !NewCursor(old(env.ready), txn, old(ChainOf(txn)), state.dbp, o))
  {
    if txn == null {
      r, t := BeginTransaction(env, o.setup, o.begin, o.newTid);
      if r != Success {
        return r, null, 0;
      }
    } else {
      t := txn;
    }
    var db := state.dbp;
    i := FindCursor(t, db);
    if i == |t.chain| {
      state.keyNotFound := false;
      if o.cursor != NoFault {
        return Failure, t, i;
      }
      LemmaPreparedValid(t.chain, db);
      t.chain := t.chain + [CursorLink(db, Unset)];
    }
    state.tid := t.tid.value;
    r := Success;
  }

  /** The end of get, getNext and deleteRecord for a call without a
      transaction of the caller's: commit the call's own transaction after
      a success, abort it otherwise (ignoring the abort's own code). */
  method FinishOwn(env: Environment, t: Txn, r: ErrCode, endFault: Fault) returns (r': ErrCode)
    requires t.tid.Some? && env.ready
    modifies t`chain
    ensures r == Success ==> r' == EndCode(endFault)
    ensures r != Success ==> r' == r
    ensures t.chain == []
  {
    if r == Success {
      r' := CommitTransaction(env, t, [], endFault);
    } else {
      var _ := AbortTransaction(env, t, [], NoFault);
      r' := r;
    }
  }

  // ---------------------------------------------------------------------
  // Record operations.

  /** get: remember the probe in lastKey (with the caller's type), look the
      key up with the index's type using DB_SET, and copy the payload of
      the first pair under it. A miss blanks the payload and sets the miss
      flag, so that the next getNext seeks from the probe. */
  method Get(env: Environment, state: IndexState, txn: Txn?, record: Record, o: Outcomes)
      returns (r: ErrCode, rec: Record)
    requires state.dbp != null && state.dbp.Valid()
    requires |record.payload| == MAX_PAYLOAD_LEN + 1
    requires txn != null ==> txn.Valid() && txn.tid.Some?
    modifies env`ready, state`lastKey, state`keyNotFound, state`tid, txn
    ensures txn != null ==> txn.Valid() && txn.tid == old(txn.tid)
    ensures state.lastKey == record.key
    ensures rec.key == record.key.(kind := state.kind)
    ensures EncodeKey(rec.key).None? ==>
      && r == KeyNotFound && rec.payload == Blanked(record.payload) && !state.keyNotFound
      && (txn != null ==> txn.chain == old(txn.chain))
    ensures EncodeKey(rec.key).Some? && !PrepOk(old(env.ready), txn, old(ChainOf(txn)), state.dbp, o) ==>
      && r == PrepCode(old(env.ready), txn, o) && rec.payload == record.payload && !state.keyNotFound
      && (txn != null ==> txn.chain == old(txn.chain))
    ensures EncodeKey(rec.key).Some? && PrepOk(old(env.ready), txn, old(ChainOf(txn)), state.dbp, o) ==>
      var hit := FindKey(state.dbp.entries, EncodeKey(rec.key).value);
      var c := Prepared(old(ChainOf(txn)), state.dbp);
      var i := CursorIndex(old(ChainOf(txn)), state.dbp);
      && (o.access == LockDeadlock ==>
            && r == Deadlock && rec.payload == Blanked(record.payload) && !state.keyNotFound
            && (txn != null ==> txn.chain == c))
      && (o.access == OtherError || (o.access == NoFault && hit.None?) ==>
            && r == KeyNotFound && rec.payload == Blanked(record.payload) && state.keyNotFound
            && (txn != null ==> txn.chain == c))
      && (o.access == NoFault && hit.Some? ==>
            && r == (if txn == null then EndCode(o.end) else Success)
            && rec.payload == CopyOut(record.payload, hit.value.data) && !state.keyNotFound
            && (txn != null ==> txn.chain == c[i := CursorLink(state.dbp, At(hit.value))]))
  {
    state.lastKey := record.key;
    state.keyNotFound := false;
    rec := record.(key := record.key.(kind := state.kind));
    var enc := EncodeKey(rec.key);
    if enc.None? {
      return KeyNotFound, rec.(payload := Blanked(rec.payload));
    }
    var t, i;
    r, t, i := PrepTxnCursor(env, state, txn, o);
    if r == Success {
      var db := state.dbp;
      var hit := FindKey(db.entries, enc.value);
      if o.access == NoFault && hit.Some? {
        t.chain := t.chain[i := CursorLink(db, At(hit.value))];
        rec := rec.(payload := CopyOut(rec.payload, hit.value.data));
      } else {
        rec := rec.(payload := Blanked(rec.payload));
        if o.access == LockDeadlock {
          r := Deadlock;
        } else {
          state.keyNotFound := true;
          r := KeyNotFound;
        }
      }
    }
    if txn == null && t != null {
      r := FinishOwn(env, t, r, o.end);
    }
  }

  /** What the cursor step of getNext produces: the code, the record handed
      back, and the pair the cursor lands on (none when it does not move). */
  datatype Step = Step(code: ErrCode, rec: Record, landed: Option<Entry>)

  /** The cursor step of getNext over the index's pairs: after a miss
      (`pending`) seek from the probe `lastKey` with DB_SET_RANGE, otherwise
      step from `pos` with DB_NEXT, and fill the record from the pair found. */
  function NextStep(entries: seq<Entry>, kind: KeyType, pending: bool, lastKey: Key, pos: Position,
                    record: Record, access: Fault): Step
    requires |record.payload| == MAX_PAYLOAD_LEN + 1
  {
    var blank := record.(payload := Blanked(record.payload));
    var probe := EncodeKey(lastKey);
    if pending && probe.None? then Step(KeyNotFound, blank, None)
    else
      var target := if pending then FindRange(entries, probe.value) else FindNext(entries, pos);
      if access == NoFault && target.Some? then
        Step(Success, Record(DecodeKey(kind, target.value.key), CopyOut(record.payload, target.value.data)), target)
      else Step(if access == LockDeadlock then Deadlock else DbEnd, blank, None)
  }

  /** The codes of getNext's step: it succeeds exactly when the cursor
      lands on a pair, whose key (decoded by the index's type) and payload
      it returns; KEY_NOTFOUND is an unusable probe after a miss, DEADLOCK a
      deadlocked cursor call, and otherwise a blanked payload and DB_END. */
  lemma LemmaNextStepCodes(entries: seq<Entry>, kind: KeyType, pending: bool, lastKey: Key, pos: Position,
                           record: Record, access: Fault)
    requires |record.payload| == MAX_PAYLOAD_LEN + 1
    ensures var s := NextStep(entries, kind, pending, lastKey, pos, record, access);
      && (s.code == Success <==> s.landed.Some?)
      && (s.code == KeyNotFound <==> pending && EncodeKey(lastKey).None?)
      && (s.code == Deadlock <==> !(pending && EncodeKey(lastKey).None?) && access == LockDeadlock)
      && (s.landed.Some? ==>
            && access == NoFault
            && s.rec == Record(DecodeKey(kind, s.landed.value.key), CopyOut(record.payload, s.landed.value.data)))
      && (s.landed.None? ==> s.rec == record.(payload := Blanked(record.payload)))
  {
  }

  /** After a miss, getNext lands on the least stored pair whose key is at
      or above the probe, and reports DB_END exactly when every stored key
      is below it: a get of the deleted key b followed by getNext returns
      (d, 1) in unittests.c:823-857. */
  lemma LemmaNextStepSeek(entries: seq<Entry>, kind: KeyType, lastKey: Key, pos: Position, record: Record)
    requires Sorted(entries) && |record.payload| == MAX_PAYLOAD_LEN + 1
    requires EncodeKey(lastKey).Some?
    ensures var s, probe := NextStep(entries, kind, true, lastKey, pos, record, NoFault), EncodeKey(lastKey).value;
      && (s.code == DbEnd <==> forall x :: x in entries ==> ByteLess(x.key, probe))
      && (s.landed.Some? ==>
            && s.landed.value in entries && !ByteLess(s.landed.value.key, probe)
            && forall x :: x in entries && !ByteLess(x.key, probe) ==>
                 x == s.landed.value || EntryLess(s.landed.value, x))
  {
    LemmaFindRange(entries, EncodeKey(lastKey).value);
  }

  /** Without a pending miss, getNext walks the stored pairs in order: a
      fresh cursor lands on the first pair, a cursor on the i-th pair on
      the next one, and past the last pair it reports DB_END, which
      unittests.c:523-534 expects after the last stored pair. */
  lemma LemmaNextStepWalk(entries: seq<Entry>, kind: KeyType, lastKey: Key, record: Record, i: nat)
    requires Sorted(entries) && |record.payload| == MAX_PAYLOAD_LEN + 1
    requires i < |entries|
    ensures NextStep(entries, kind, false, lastKey, Unset, record, NoFault).landed == Some(entries[0])
    ensures var s := NextStep(entries, kind, false, lastKey, At(entries[i]), record, NoFault);
      && (i + 1 < |entries| ==> s.landed == Some(entries[i + 1]))
      && (i + 1 == |entries| ==> s.code == DbEnd)
  {
    LemmaFindNextWalk(entries, i);
  }

  /** A pair stored under a SHORT or INT key comes back from getNext on an
      index of that type with the key's own value. */
  lemma LemmaNextStepKey(entries: seq<Entry>, pending: bool, lastKey: Key, pos: Position,
                         record: Record, access: Fault, k: Key)
    requires |record.payload| == MAX_PAYLOAD_LEN + 1
    requires k.kind == Short || k.kind == Int
    requires var s := NextStep(entries, k.kind, pending, lastKey, pos, record, access);
      s.landed.Some? && s.landed.value.key == EncodeKey(k).value
    ensures var s := NextStep(entries, k.kind, pending, lastKey, pos, record, access);
      && s.rec.key.kind == k.kind
      && (k.kind == Short ==> ShortKey(s.rec.key) == ShortKey(k))
      && (k.kind == Int ==> IntKey(s.rec.key) == IntKey(k))
  {
    LemmaKeyRoundTrip(k);
  }

  /** The chain after the cursor at `i` has (or has not) landed on a pair. */
  function Landed(chain: seq<CursorLink>, i: nat, db: Database, landed: Option<Entry>): seq<CursorLink>
    requires i < |chain|
  {
    if landed.Some? then chain[i := CursorLink(db, At(landed.value))] else chain
  }

  /** getNext: after a get that missed (and while the cursor it used is
      still the transaction's), seek the first pair at or above the probe
      with DB_SET_RANGE; otherwise step the cursor with DB_NEXT. The pair
      found is returned with its key decoded by the index's type; running
      off the end gives DB_END. A call without a transaction of the
      caller's commits its own after a success. Such a call begins its
      transaction with no cursors, so the cursor is new and the miss flag
      is cleared: only a caller's transaction can reach the unusable-probe
      return, and a call's own transaction is always finished. */
  method GetNext(env: Environment, state: IndexState, txn: Txn?, record: Record, o: Outcomes)
      returns (r: ErrCode, rec: Record)
    requires state.dbp != null && state.dbp.Valid()
    requires |record.payload| == MAX_PAYLOAD_LEN + 1
    requires txn != null ==> txn.Valid() && txn.tid.Some?
    modifies env`ready, state`keyNotFound, state`tid, txn
    ensures txn != null ==> txn.Valid() && txn.tid == old(txn.tid)
    ensures !PrepOk(old(env.ready), txn, old(ChainOf(txn)), state.dbp, o) ==>
      && r == PrepCode(old(env.ready), txn, o) && rec == record
      && (txn != null ==> txn.chain == old(txn.chain))
    ensures PrepOk(old(env.ready), txn, old(ChainOf(txn)), state.dbp, o) ==>
      var c := Prepared(old(ChainOf(txn)), state.dbp);
      var i := CursorIndex(old(ChainOf(txn)), state.dbp);
      var s := NextStep(state.dbp.entries, state.kind, old(state.keyNotFound) && i < |old(ChainOf(txn))|,
                        state.lastKey, c[i].pos, record, o.access);
      && !state.keyNotFound
      && r == (if txn == null && s.code == Success then EndCode(o.end) else s.code)
      && rec == s.rec
      && (txn != null ==> txn.chain == Landed(c, i, state.dbp, s.landed))
    ensures txn == null ==> r != KeyNotFound
  {
    rec := record;
    var t, i;
    r, t, i := PrepTxnCursor(env, state, txn, o);
    if r == Success {
      r, rec := Advance(state, t, i, record, o.access);
    }
    if txn == null && t != null {
      r := FinishOwn(env, t, r, o.end);
    }
  }

  /** The cursor step of getNext once the transaction's cursor for the
      index is at `t.chain[i]`: seek from the probe after a miss, step
      forward otherwise, and fill the record from the pair found. The
      miss flag is cleared either way. */
  method Advance(state: IndexState, t: Txn, i: nat, record: Record, access: Fault)
      returns (r: ErrCode, rec: Record)
    requires state.dbp != null && |record.payload| == MAX_PAYLOAD_LEN + 1
    requires i < |t.chain| && t.chain[i].db == state.dbp
    modifies state`keyNotFound, t`chain
    ensures !state.keyNotFound
    ensures var s := NextStep(state.dbp.entries, state.kind, old(state.keyNotFound), state.lastKey,
                              old(t.chain)[i].pos, record, access);
      r == s.code && rec == s.rec && t.chain == Landed(old(t.chain), i, state.dbp, s.landed)
  {
    var db := state.dbp;
    var target: Option<Entry>;
    if state.keyNotFound {
      state.keyNotFound := false;
      var probe := EncodeKey(state.lastKey);
      if probe.None? {
        return KeyNotFound, record.(payload := Blanked(record.payload));
      }
      target := FindRange(db.entries, probe.value);
    } else {
      target := FindNext(db.entries, t.chain[i].pos);
    }
    if access == NoFault && target.Some? {
      t.chain := t.chain[i := CursorLink(db, At(target.value))];
      rec := Record(DecodeKey(state.kind, target.value.key), CopyOut(record.payload, target.value.data));
      r := Success;
    } else {
      rec := record.(payload := Blanked(record.payload));
      r := if access == LockDeadlock then Deadlock else DbEnd;
    }
  }

  /** insertRecord: store the pair of the encoded key (with the caller's
      type) and the payload with its NUL; an identical pair is refused. */
  method InsertRecord(state: IndexState, k: Key, payload: seq<byte>, f: Fault) returns (r: ErrCode)
    requires state.dbp != null && state.dbp.Valid()
    requires StrLen(payload) <= MAX_PAYLOAD_LEN
    modifies state.dbp`entries
    ensures state.dbp.Valid()
    ensures EncodeKey(k).None? ==> r == Failure && state.dbp.entries == old(state.dbp.entries)
    ensures EncodeKey(k).Some? ==>
      var e := Entry(EncodeKey(k).value, StoredPayload(payload));
      && (f != NoFault ==> r == FaultCode(f) && state.dbp.entries == old(state.dbp.entries))
      && (f == NoFault && e in old(state.dbp.entries) ==>
            r == EntryExists && state.dbp.entries == old(state.dbp.entries))
      && (f == NoFault && e !in old(state.dbp.entries) ==>
            r == Success && state.dbp.entries == Insert(old(state.dbp.entries), e))
  {
    var enc := EncodeKey(k);
    if enc.None? {
      return Failure;
    }
    var db := state.dbp;
    var e := Entry(enc.value, StoredPayload(payload));
    if f != NoFault {
      return FaultCode(f);
    }
    if e in db.entries {
      return EntryExists;
    }
    db.entries := Insert(db.entries, e);
    r := Success;
  }

  /** The NULL_PAYLOAD path of deleteRecord: DB->del, under the caller's
      transaction if there is one, removes every entry under the key. */
  method DeleteKey(db: Database, key: seq<byte>, access: Fault) returns (r: ErrCode)
    requires db.Valid()
    modifies db`entries
    ensures db.Valid()
    ensures access != NoFault ==> r == FaultCode(access) && db.entries == old(db.entries)
    ensures access == NoFault && !HasKey(old(db.entries), key) ==>
      r == KeyNotFound && db.entries == old(db.entries)
    ensures access == NoFault && HasKey(old(db.entries), key) ==>
      r == Success && db.entries == RemoveKey(old(db.entries), key)
  {
    if access != NoFault {
      return FaultCode(access);
    }
    if !HasKey(db.entries, key) {
      return KeyNotFound;
    }
    db.entries := RemoveKey(db.entries, key);
    r := Success;
  }

  /** deleteRecord: with an all-zero payload remove every pair under the
      key (KEY_NOTFOUND when there is none); otherwise position a cursor on
      the exact pair with DB_GET_BOTH and delete it (ENTRY_DNE when it is
      not stored). The key is encoded with the caller's type. The unit
      tests expect both paths: unittests.c:618-646 deletes every payload
      under a key and then misses it with get, and unittests.c:536-564 and
      660-694 delete one pair and keep the others under its key. */
  method DeleteRecord(env: Environment, state: IndexState, txn: Txn?, record: Record, o: Outcomes)
      returns (r: ErrCode)
    requires state.dbp != null && state.dbp.Valid()
    requires |record.payload| == MAX_PAYLOAD_LEN + 1 && StrLen(record.payload) <= MAX_PAYLOAD_LEN
    requires txn != null ==> txn.Valid() && txn.tid.Some?
    modifies env`ready, state`keyNotFound, state`tid, txn, state.dbp`entries
    ensures state.dbp.Valid()
    ensures txn != null ==> txn.Valid() && txn.tid == old(txn.tid)
    ensures EncodeKey(record.key).None? || IsNullPayload(record.payload) ==>
      && state.keyNotFound == old(state.keyNotFound)
      && (txn != null ==> txn.chain == old(txn.chain))
    ensures EncodeKey(record.key).None? ==>
      r == KeyNotFound && state.dbp.entries == old(state.dbp.entries)
    ensures EncodeKey(record.key).Some? && IsNullPayload(record.payload) ==>
      var key := EncodeKey(record.key).value;
      && (o.access != NoFault ==> r == FaultCode(o.access) && state.dbp.entries == old(state.dbp.entries))
      && (o.access == NoFault && !HasKey(old(state.dbp.entries), key) ==>
            r == KeyNotFound && state.dbp.entries == old(state.dbp.entries))
      && (o.access == NoFault && HasKey(old(state.dbp.entries), key) ==>
            r == Success && state.dbp.entries == RemoveKey(old(state.dbp.entries), key))
    ensures EncodeKey(record.key).Some? && !IsNullPayload(record.payload) ==>
      var e := Entry(EncodeKey(record.key).value, StoredPayload(record.payload));
      var c := Prepared(old(ChainOf(txn)), state.dbp);
      var i := CursorIndex(old(ChainOf(txn)), state.dbp);
      && state.keyNotFound == (old(state.keyNotFound) && !NewCursor(old(env.ready), txn, old(ChainOf(txn)), state.dbp, o))
      && (!PrepOk(old(env.ready), txn, old(ChainOf(txn)), state.dbp, o) ==>
            && r == PrepCode(old(env.ready), txn, o) && state.dbp.entries == old(state.dbp.entries)
            && (txn != null ==> txn.chain == old(txn.chain)))
      && (PrepOk(old(env.ready), txn, old(ChainOf(txn)), state.dbp, o) ==>
            && (o.access == LockDeadlock ==>
                  r == Deadlock && state.dbp.entries == old(state.dbp.entries) && (txn != null ==> txn.chain == c))
            && (o.access == OtherError || (o.access == NoFault && e !in old(state.dbp.entries)) ==>
                  r == EntryDne && state.dbp.entries == old(state.dbp.entries) && (txn != null ==> txn.chain == c))
            && (o.access == NoFault && e in old(state.dbp.entries) ==>
                  && (txn != null ==> txn.chain == c[i := CursorLink(state.dbp, At(e))])
                  && (o.remove != NoFault ==>
                        r == FaultCode(o.remove) && state.dbp.entries == old(state.dbp.entries))
                  && (o.remove == NoFault ==>
                        && r == (if txn == null then EndCode(o.end) else Success)
                        && state.dbp.entries == RemoveEntry(old(state.dbp.entries), e))))
  {
    var enc := EncodeKey(record.key);
    if enc.None? {
      return KeyNotFound;
    }
    var db := state.dbp;
    if IsNullPayload(record.payload) {
      r := DeleteKey(db, enc.value, o.access);
      return;
    }
    var e := Entry(enc.value, StoredPayload(record.payload));
    var t, i;
    r, t, i := PrepTxnCursor(env, state, txn, o);
    if r == Success {
      if o.access == NoFault && e in db.entries {
        t.chain := t.chain[i := CursorLink(db, At(e))];
        if o.remove != NoFault {
          r := FaultCode(o.remove);
        } else {
          db.entries := RemoveEntry(db.entries, e);
        }
      } else {
        r := if o.access == LockDeadlock then Deadlock else EntryDne;
      }
    }
    if txn == null && t != null {
      r := FinishOwn(env, t, r, o.end);
    }
  }
}
