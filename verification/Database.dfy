/** The request database and one connection to it (src/db/storm_mysql_ifce.cpp,
    src/db/mysql_query.cpp).

    A connection sees the committed tables and, inside a transaction, its own working tables.
    Row identifiers come from auto-increment counters that no rollback resets. Which statements
    fail is decided by an arbitrary function of the statement's number; a failed statement
    changes no table. */
module Database {
  import opened Srm
  import opened Wrappers

  datatype QueueRow = QueueRow(id: nat, requestType: string, token: string, status: StatusCode, nbreqfiles: nat)
  datatype DirRow = DirRow(id: nat, isDirectory: bool, allLevels: bool, levels: Option<int>)
  datatype FileRow = FileRow(id: nat, surl: string, queueId: nat, dirId: Option<nat>)
  datatype StatusRow = StatusRow(id: nat, fileId: nat, code: StatusCode)
  datatype ProtocolRow = ProtocolRow(queueId: nat, protocol: string)

  /** request_queue, request_DirOption, request_Get/Put/BoL, status_Get/Put/BoL and
      request_TransferProtocols; one request uses one of the three file and status tables. */
  datatype Tables = Tables(
    queue: seq<QueueRow>,
    dirs: seq<DirRow>,
    files: seq<FileRow>,
    statuses: seq<StatusRow>,
    protocols: seq<ProtocolRow>)

  /** The next auto-increment value of each table. */
  datatype Ids = Ids(queue: nat, dir: nat, file: nat, status: nat)

  datatype Statement =
    | InsertQueue(requestType: string, token: string, status: StatusCode, nbreqfiles: nat)
    | InsertDir(isDirectory: bool, allLevels: bool, levels: Option<int>)
    | InsertFile(surl: string, queueId: nat, dirId: Option<nat>)
    | InsertStatus(fileId: nat, code: StatusCode)
    | InsertProtocol(queueId: nat, protocol: string)
    | Malformed // not a complete SQL statement

  function Insert(t: Tables, ids: Ids, stmt: Statement): Tables {
    match stmt
    case InsertQueue(requestType, token, status, n) =>
      t.(queue := t.queue + [QueueRow(ids.queue, requestType, token, status, n)])
    case InsertDir(isDir, all, levels) => t.(dirs := t.dirs + [DirRow(ids.dir, isDir, all, levels)])
    case InsertFile(surl, queueId, dirId) => t.(files := t.files + [FileRow(ids.file, surl, queueId, dirId)])
    case InsertStatus(fileId, code) => t.(statuses := t.statuses + [StatusRow(ids.status, fileId, code)])
    case InsertProtocol(queueId, protocol) => t.(protocols := t.protocols + [ProtocolRow(queueId, protocol)])
    case Malformed => t
  }

  /** The identifier mysql_insert_id reports. */
  function InsertedId(ids: Ids, stmt: Statement): nat {
    match stmt
    case InsertQueue(_, _, _, _) => ids.queue
    case InsertDir(_, _, _) => ids.dir
    case InsertFile(_, _, _) => ids.file
    case InsertStatus(_, _) => ids.status
    case _ => 0
  }

  function NextIds(ids: Ids, stmt: Statement): Ids {
    match stmt
    case InsertQueue(_, _, _, _) => ids.(queue := ids.queue + 1)
    case InsertDir(_, _, _) => ids.(dir := ids.dir + 1)
    case InsertFile(_, _, _) => ids.(file := ids.file + 1)
    case InsertStatus(_, _) => ids.(status := ids.status + 1)
    case _ => ids
  }

  // ----- well-formed tables -----

  /** Identifiers grow along each table and lie below the counters, and references point below them. */
  ghost predicate WellFormed(t: Tables, ids: Ids) {
    match t
    case Tables(queue, dirs, files, statuses, protocols) =>
      && (forall i, j :: 0 <= i < j < |queue| ==> queue[i].id < queue[j].id)
      && (forall i, j :: 0 <= i < j < |dirs| ==> dirs[i].id < dirs[j].id)
      && (forall i, j :: 0 <= i < j < |files| ==> files[i].id < files[j].id)
      && (forall i, j :: 0 <= i < j < |statuses| ==> statuses[i].id < statuses[j].id)
      && (forall r :: r in queue ==> r.id < ids.queue)
      && (forall r :: r in dirs ==> r.id < ids.dir)
      && (forall r :: r in files ==> r.id < ids.file && r.queueId < ids.queue)
      && (forall r :: r in files && r.dirId.Some? ==> r.dirId.value < ids.dir)
      && (forall r :: r in statuses ==> r.id < ids.status && r.fileId < ids.file)
      && (forall r :: r in protocols ==> r.queueId < ids.queue)
  }

  /** The identifiers a statement mentions have been handed out. */
  predicate Refers(stmt: Statement, ids: Ids) {
    match stmt
    case InsertFile(_, queueId, dirId) => queueId < ids.queue && (dirId.Some? ==> dirId.value < ids.dir)
    case InsertStatus(fileId, _) => fileId < ids.file
    case InsertProtocol(queueId, _) => queueId < ids.queue
    case _ => true
  }

  lemma InsertKeepsWellFormed(t: Tables, ids: Ids, stmt: Statement)
    requires WellFormed(t, ids) && Refers(stmt, ids)
    ensures WellFormed(Insert(t, ids, stmt), NextIds(ids, stmt))
  {
  }

  predicate NotBelow(ids: Ids, later: Ids) {
    ids.queue <= later.queue && ids.dir <= later.dir && ids.file <= later.file && ids.status <= later.status
  }

  /** Rows that a rollback removed leave gaps in the numbering only. */
  lemma CountersMayAdvance(t: Tables, ids: Ids, later: Ids)
    requires WellFormed(t, ids) && NotBelow(ids, later)
    ensures WellFormed(t, later)
  {
  }

  // ----- the connection -----

  class Connection {
    var committed: Tables
    var working: Tables
    var savepoints: seq<(string, Tables)>
    var ids: Ids
    var trStarted: bool
    var clock: nat // statements executed so far
    const fails: nat -> bool

    /** Outside a transaction the connection sees what is committed. */
    ghost predicate Valid()
      reads this
    {
      !trStarted ==> working == committed && savepoints == []
    }

    /** storm_start_tr: BEGIN first commits whatever an earlier transaction left open. */
    method StartTransaction()
      requires Valid()
      modifies this`committed, this`savepoints, this`trStarted
      ensures Valid() && trStarted
      ensures committed == working && savepoints == []
    {
      committed := working;
      savepoints := [];
      trStarted := true;
    }

    /** storm_end_tr: COMMIT. */
    method EndTransaction()
      requires Valid()
      modifies this`committed, this`savepoints, this`trStarted
      ensures Valid() && !trStarted
      ensures committed == working && savepoints == []
    {
      committed := working;
      savepoints := [];
      trStarted := false;
    }

    /** storm_abort_tr: ROLLBACK. */
    method AbortTransaction()
      requires Valid()
      modifies this`working, this`savepoints, this`trStarted
      ensures Valid() && !trStarted
      ensures working == committed && savepoints == []
    {
      working := committed;
      savepoints := [];
      trStarted := false;
    }

    /** set_savepoint: an older savepoint of the same name is replaced. */
    method SetSavepoint(name: string)
      requires Valid() && trStarted
      modifies this`savepoints
      ensures Valid()
      ensures savepoints == Without(old(savepoints), name) + [(name, working)]
    {
      savepoints := Without(savepoints, name) + [(name, working)];
    }

    /** rollback_to_savepoint: restores the tables and drops the later savepoints; naming none
        is an error that changes nothing. */
    method RollbackToSavepoint(name: string)
      requires Valid() && trStarted
      modifies this`working, this`savepoints
      ensures Valid()
      ensures var i := LastNamed(old(savepoints), name);
        if i == -1 then working == old(working) && savepoints == old(savepoints)
        else working == old(savepoints)[i].1 && savepoints == old(savepoints)[..i + 1]
    {
      var i := LastNamed(savepoints, name);
      if i != -1 {
        working := savepoints[i].1;
        savepoints := savepoints[..i + 1];
      }
    }

    /** ID_exec_query: the new row's identifier, or None where the source throws mysql_exception. */
    method Execute(stmt: Statement) returns (id: Option<nat>)
      requires Valid() && trStarted
      modifies this`working, this`ids, this`clock
      ensures Valid() && clock == old(clock) + 1
      ensures id.Some? <==> !stmt.Malformed? && !fails(old(clock))
      ensures id.Some? ==>
        && id.value == InsertedId(old(ids), stmt)
        && working == Insert(old(working), old(ids), stmt) && ids == NextIds(old(ids), stmt)
      ensures id.None? ==> working == old(working) && ids == old(ids)
    {
      var failed := stmt.Malformed? || fails(clock);
      clock := clock + 1;
      if failed {
        return None;
      }
      id := Some(InsertedId(ids, stmt));
      working := Insert(working, ids, stmt);
      ids := NextIds(ids, stmt);
    }
  }

  /** The savepoints of other names. */
  function Without(savepoints: seq<(string, Tables)>, name: string): (kept: seq<(string, Tables)>) {
    if savepoints == [] then []
    else (if savepoints[0].0 == name then [] else [savepoints[0]]) + Without(savepoints[1..], name)
  }

  lemma {:induction false} WithoutIs(savepoints: seq<(string, Tables)>, name: string)
    ensures forall s :: s in Without(savepoints, name) <==> s in savepoints && s.0 != name
  {
    if savepoints != [] {
      WithoutIs(savepoints[1..], name);
    }
  }

  /** The position of the savepoint of this name, -1 if there is none. */
  function LastNamed(savepoints: seq<(string, Tables)>, name: string): (i: int)
    ensures i == -1 || (0 <= i < |savepoints| && savepoints[i].0 == name)
    ensures forall j :: i < j < |savepoints| ==> savepoints[j].0 != name
  {
    var n := |savepoints|;
    if n == 0 then -1 else if savepoints[n - 1].0 == name then n - 1 else LastNamed(savepoints[..n - 1], name)
  }
}
