/** The index catalogue of bdbimpl.c: the global list `dbLookup` of created
    indices, each with its Berkeley DB handle, key type and open count, and
    the per-thread index handle (BDBState) that openIndex hands out. */
module Catalogue {
  import opened Api
  import opened Store
  import opened Seqs

  /** A Berkeley DB handle (DB *) and the sorted storage behind it. */
  class Database {
    var entries: seq<Entry>
    var isOpen: bool

    /** db_create: a handle on an empty, not yet opened database. */
    constructor ()
      ensures entries == [] && !isOpen
    {
      entries := [];
      isOpen := false;
    }

    predicate Valid()
      reads this
    {
      Sorted(entries)
    }
  }

  /** One node of `dbLookup` (DBLink). */
  datatype DbLink = DbLink(name: string, db: Database, kind: KeyType, numOpenThreads: int)

  /** The state of one opened index (BDBState): the handle, the type and
      name of the index, the current transaction id, and the probe of the
      last get() with whether it missed. */
  class IndexState {
    var dbp: Database?
    const kind: KeyType
    const dbName: string
    var tid: nat
    var lastKey: Key
    var keyNotFound: bool

    /** The zero-filled state openIndex allocates, then given its handle,
        type and name. */
    constructor (db: Database, kind: KeyType, name: string)
      ensures dbp == db && this.kind == kind && dbName == name
      ensures tid == 0 && lastKey == ZeroKey() && !keyNotFound
    {
      dbp := db;
      this.kind := kind;
      dbName := name;
      tid := 0;
      lastKey := ZeroKey();
      keyNotFound := false;
    }
  }

  /** The first position of `name` in the list, or its length when the name
      was never created: what the lookup loops of create, openIndex and
      closeIndex stop at. */
  function IndexOfName(links: seq<DbLink>, name: string): (i: nat)
    ensures i <= |links|
    ensures i < |links| ==> links[i].name == name
    ensures forall j :: 0 <= j < i ==> links[j].name != name
  {
    FirstWhere(links, (l: DbLink) => l.name == name)
  }

  predicate Named(links: seq<DbLink>, name: string)
  {
    exists j :: 0 <= j < |links| && links[j].name == name
  }

  /** The lookup finds the name exactly when it was created. */
  lemma LemmaIndexOfName(links: seq<DbLink>, name: string)
    ensures Named(links, name) <==> IndexOfName(links, name) < |links|
  {
  }

  /** How p_createEnv goes: every step succeeds; db_env_create fails, so
      no environment exists; or a later step (the ENV directory,
      set_lk_detect, DB_ENV->open) fails after the handle was created. */
  datatype EnvSetup = EnvOk | EnvCreateFails | EnvLaterFails

  /** The global state of bdbimpl.c: whether the Berkeley DB environment
      handle is set (`env != NULL`), whether the error log is open
      (`stderrfile != NULL`), and the catalogue `dbLookup`. */
  class Environment {
    var ready: bool
    var logOpen: bool
    var links: seq<DbLink>

    /** No two indices share a name or a handle, and no open count is
        negative. */
    predicate Valid()
      reads this
    {
      Consistent(links)
    }

    constructor ()
      ensures !ready && !logOpen && links == [] && Valid()
    {
      ready := false;
      logOpen := false;
      links := [];
    }

    /** p_createEnv: create the environment handle, then its directory,
        deadlock detection and the open. A step after the handle was
        created fails with FAILURE but leaves the handle set, so later
        calls do not set the environment up again. */
    method CreateEnv(setup: EnvSetup) returns (r: ErrCode)
      modifies this`ready
      ensures r == Success <==> setup == EnvOk
      ensures r == Success || r == Failure
      ensures ready == (setup != EnvCreateFails)
    {
      if setup == EnvCreateFails {
        ready := false;
        return Failure;
      }
      ready := true;
      r := if setup == EnvOk then Success else Failure;
    }

    /** The lookup loop: walk the list until the name matches. */
    method Find(name: string) returns (i: nat)
      ensures i == IndexOfName(links, name)
    {
      i := 0;
      while i < |links| && links[i].name != name
        invariant i <= |links|
        invariant forall j :: 0 <= j < i ==> links[j].name != name
      {
        i := i + 1;
      }
      LemmaFirstMatch(links, name, i);
    }

    /** create: refuse a name already in the catalogue; otherwise open the
        error log if it is not open, set up the environment if there is
        none, create a database handle, and append a link for it with no
        opener. `logOk`, `setup` and `dbOk` are the outcomes of fopen, of
        p_createEnv and of db_create. */
    method Create(kind: KeyType, name: string, logOk: bool, setup: EnvSetup, dbOk: bool) returns (r: ErrCode)
      requires Valid()
      modifies this
      ensures Valid()
      ensures Named(old(links), name) ==>
        r == DbExists && links == old(links) && ready == old(ready) && logOpen == old(logOpen)
      ensures !Named(old(links), name) ==> logOpen == (old(logOpen) || logOk)
      ensures !Named(old(links), name) && !(old(logOpen) || logOk) ==>
        r == Failure && links == old(links) && ready == old(ready)
      ensures !Named(old(links), name) && (old(logOpen) || logOk) ==>
        ready == (old(ready) || setup != EnvCreateFails)
      ensures !Named(old(links), name) && (old(logOpen) || logOk) && !(old(ready) || setup == EnvOk) ==>
        r == Failure && links == old(links)
      ensures !Named(old(links), name) && (old(logOpen) || logOk) && (old(ready) || setup == EnvOk) && !dbOk ==>
        r == Failure && links == old(links)
      ensures !Named(old(links), name) && (old(logOpen) || logOk) && (old(ready) || setup == EnvOk) && dbOk ==>
        && r == Success
        && |links| == |old(links)| + 1
        && links[..|old(links)|] == old(links)
        && links[|old(links)|].name == name
        && links[|old(links)|].kind == kind
        && links[|old(links)|].numOpenThreads == 0
        && fresh(links[|old(links)|].db)
        && links[|old(links)|].db.entries == []
    {
      var i := Find(name);
      LemmaIndexOfName(links, name);
      if i < |links| {
        return DbExists;
      }
      if !logOpen {
        if !logOk {
          return Failure;
        }
        logOpen := true;
      }
      if !ready {
        r := CreateEnv(setup);
        if r != Success {
          return r;
        }
      }
      if !dbOk {
        return Failure;
      }
      Append(kind, name);
      r := Success;
    }

    /** The end of create: a link for a new, empty database under a name
        the catalogue does not hold, with no opener. */
    method Append(kind: KeyType, name: string)
      requires Valid() && !Named(links, name)
      modifies this`links
      ensures Valid()
      ensures |links| == |old(links)| + 1
      ensures links[..|old(links)|] == old(links)
      ensures links[|old(links)|].name == name
      ensures links[|old(links)|].kind == kind
      ensures links[|old(links)|].numOpenThreads == 0
      ensures fresh(links[|old(links)|].db)
      ensures links[|old(links)|].db.entries == []
    {
      var db := new Database();
      LemmaAppendLink(links, DbLink(name, db, kind, 0));
      links := links + [DbLink(name, db, kind, 0)];
    }

    /** openIndex: count one more opener of a created index; the first
        opener opens the database. A failed open closes the handle and
        reports FAILURE, but the count stays raised, so a later openIndex
        of the same name does not try to open it again. `openOk` is the
        outcome of DB->open. */
    method OpenIndex(name: string, openOk: bool) returns (r: ErrCode, state: IndexState?)
      requires Valid()
      modifies this, set l | l in links :: l.db
      ensures Valid() && ready == old(ready)
      ensures !Named(old(links), name) ==> r == DbDne && state == null && links == old(links)
      ensures Named(old(links), name) ==>
        var i := IndexOfName(old(links), name);
        var link := old(links)[i];
        && links == old(links)[i := link.(numOpenThreads := link.numOpenThreads + 1)]
        && (forall l | l in old(links) && l != link :: l.db.isOpen == old(l.db.isOpen))
        && (link.numOpenThreads == 0 && !openOk ==> r == Failure && state == null && !link.db.isOpen)
        && (link.numOpenThreads == 0 && openOk ==> link.db.isOpen)
        && (link.numOpenThreads != 0 ==> link.db.isOpen == old(link.db.isOpen))
        && (link.numOpenThreads != 0 || openOk ==>
              && r == Success && state != null && fresh(state)
              && state.dbp == link.db && state.kind == link.kind && state.dbName == name
              && state.tid == 0 && state.lastKey == ZeroKey() && !state.keyNotFound)
      ensures forall l | l in old(links) :: l.db.entries == old(l.db.entries)
    {
      var i := Find(name);
      LemmaIndexOfName(links, name);
      if i == |links| {
        return DbDne, null;
      }
      var link := links[i];
      LemmaBumpLink(links, i);
      links := links[i := link.(numOpenThreads := link.numOpenThreads + 1)];
      if link.numOpenThreads + 1 == 1 {
        if !openOk {
          link.db.isOpen := false;
          return Failure, null;
        }
        link.db.isOpen := true;
      }
      state := new IndexState(link.db, link.kind, name);
      r := Success;
    }

    /** closeIndex: an index of a known name only loses its handle; neither
        the count nor the database is touched. */
    method CloseIndex(state: IndexState) returns (r: ErrCode)
      modifies state
      ensures !Named(links, state.dbName) ==> r == DbDne && state.dbp == old(state.dbp)
      ensures Named(links, state.dbName) ==> r == Success && state.dbp == null
      ensures state.tid == old(state.tid) && state.lastKey == old(state.lastKey)
      ensures state.keyNotFound == old(state.keyNotFound)
    {
      var i := Find(state.dbName);
      LemmaIndexOfName(links, state.dbName);
      if i == |links| {
        return DbDne;
      }
      state.dbp := null;
      r := Success;
    }
  }

  /** No two links share a name or a handle, and no open count is negative. */
  predicate Consistent(links: seq<DbLink>)
  {
    && (forall i, j :: 0 <= i < j < |links| ==> links[i].name != links[j].name)
    && (forall i, j :: 0 <= i < j < |links| ==> links[i].db != links[j].db)
    && (forall i :: 0 <= i < |links| ==> links[i].numOpenThreads >= 0)
  }

  /** A link with a new name and a new handle keeps the catalogue consistent. */
  lemma LemmaAppendLink(links: seq<DbLink>, l: DbLink)
    requires Consistent(links) && l.numOpenThreads >= 0
    requires forall j :: 0 <= j < |links| ==> links[j].name != l.name && links[j].db != l.db
    ensures Consistent(links + [l])
  {
    var s := links + [l];
    assert forall j :: 0 <= j < |links| ==> s[j] == links[j];
  }

  /** One more opener keeps the catalogue consistent, and the handle of
      the link it counts belongs to no other link. */
  lemma LemmaBumpLink(links: seq<DbLink>, i: nat)
    requires Consistent(links) && i < |links|
    ensures Consistent(links[i := links[i].(numOpenThreads := links[i].numOpenThreads + 1)])
    ensures forall l | l in links && l != links[i] :: l.db != links[i].db
  {
    var s := links[i := links[i].(numOpenThreads := links[i].numOpenThreads + 1)];
    assert forall j :: 0 <= j < |links| ==> s[j].name == links[j].name && s[j].db == links[j].db;
  }

  lemma LemmaFirstMatch(links: seq<DbLink>, name: string, i: nat)
    requires i <= |links|
    requires i < |links| ==> links[i].name == name
    requires forall j :: 0 <= j < i ==> links[j].name != name
    ensures i == IndexOfName(links, name)
  {
  }
}
