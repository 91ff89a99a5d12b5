/** Submission of asynchronous requests (src/frontend/PtgRequest.cpp, PtpRequest.cpp,
    BolRequest.cpp, file_request.hpp, filerequest_template.hpp). */
module Submission {
  import opened Database
  import opened Protocols
  import opened Sequences
  import opened SqlString
  import opened Srm
  import opened Wrappers

  datatype Kind = PtG | PtP | BoL

  /** numLevels is -1 if it was not supplied. */
  datatype DirOption = DirOption(isDirectory: bool, allLevels: bool, numLevels: int)

  datatype Surl = Surl(url: string, dirOption: Option<DirOption>, status: StatusCode, explanation: string)

  const ALL_FAILED := "All files requests are failed"
  const SURL_FAILED := "Unable to store the request in StoRM DB"

  function Failed(surl: Surl): Surl { surl.(status := FAILURE, explanation := SURL_FAILED) }

  // ----- the statements of one SURL -----

  predicate HasDirOption(kind: Kind, surl: Surl) { !kind.PtP? && surl.dirOption.Some? }

  /** BolRequest writes the end of this statement to another stream, so that what it executes
      breaks off after the second value. */
  function DirStatement(kind: Kind, option: DirOption): Statement {
    if kind.BoL? then Malformed
    else
      InsertDir(option.isDirectory, option.allLevels, if option.numLevels > 0 then Some(option.numLevels) else None)
  }

  /** config_RequestTypeID. */
  function TypeCode(kind: Kind): string {
    match kind
    case PtG => "PTG"
    case PtP => "PTP"
    case BoL => "BOL"
  }

  function SavepointName(kind: Kind): string {
    match kind
    case PtG => "GETFILE"
    case PtP => "PUTFILE"
    case BoL => "BOLFILE"
  }

  predicate AlwaysMalformed(kind: Kind, surl: Surl) { kind.BoL? && HasDirOption(kind, surl) }

  function StatementCount(kind: Kind, surl: Surl): nat { if HasDirOption(kind, surl) then 3 else 2 }

  /** Whether all statements of a SURL succeed that starts at statement number n. */
  predicate Succeeds(kind: Kind, surl: Surl, n: nat, fails: nat -> bool) {
    !AlwaysMalformed(kind, surl) && forall j :: n <= j < n + StatementCount(kind, surl) ==> !fails(j)
  }

  /** How many statements it takes: the first failing one is the last. */
  function Executed(kind: Kind, surl: Surl, n: nat, fails: nat -> bool): nat {
    if AlwaysMalformed(kind, surl) || fails(n) then 1
    else if fails(n + 1) then 2
    else StatementCount(kind, surl)
  }

  /** The number of the first statement of SURL i, when SURL 0 starts at n. */
  function ClockAt(kind: Kind, surls: seq<Surl>, i: nat, n: nat, fails: nat -> bool): nat
    requires i <= |surls|
  {
    if i == 0 then n
    else
      var at := ClockAt(kind, surls, i - 1, n, fails);
      at + Executed(kind, surls[i - 1], at, fails)
  }

  // ----- what is stored -----

  /** The row has the fields of the dir option; the number of levels is NULL unless it is positive. */
  predicate RowOfOption(row: DirRow, option: DirOption) {
    && row.isDirectory == option.isDirectory && row.allLevels == option.allLevels
    && row.levels == if option.numLevels > 0 then Some(option.numLevels) else None
  }

  /** A dir-option row is due for this SURL, and there is one. */
  predicate LastHasDir(kind: Kind, surl: Surl, dirs: seq<DirRow>) {
    surl.dirOption.Some? && !kind.PtP? && dirs != []
  }

  /** The last rows are those of this SURL: a file row of request rid, its queued status row, and its
      dir-option row if it has one, which srmBringOnline cannot store. */
  predicate LastLinked(kind: Kind, surl: Surl, rid: nat,
                       dirs: seq<DirRow>, files: seq<FileRow>, statuses: seq<StatusRow>)
  {
    && files != [] && statuses != []
    && var file, status := files[|files| - 1], statuses[|statuses| - 1];
       && file.surl == surl.url && file.queueId == rid
       && status.fileId == file.id && status.code == REQUEST_QUEUED
       && if surl.dirOption.Some? && !kind.PtP?
          then
            && kind.PtG? && dirs != [] && file.dirId == Some(dirs[|dirs| - 1].id)
            && RowOfOption(dirs[|dirs| - 1], surl.dirOption.value)
          else file.dirId == None
  }

  /** The rows added for a list of SURLs: for each SURL not marked FAILURE, in order, its file row,
      its status row, and its dir-option row if it has one; and nothing else. */
  ghost predicate Linked(kind: Kind, surls: seq<Surl>, rid: nat,
                         dirs: seq<DirRow>, files: seq<FileRow>, statuses: seq<StatusRow>)
    decreases |surls|
  {
    if surls == [] then dirs == [] && files == [] && statuses == []
    else
      var last, before := surls[|surls| - 1], surls[..|surls| - 1];
      if last.status == FAILURE then Linked(kind, before, rid, dirs, files, statuses)
      else
        && LastLinked(kind, last, rid, dirs, files, statuses)
        && Linked(kind, before, rid, if LastHasDir(kind, last, dirs) then dirs[..|dirs| - 1] else dirs,
                  files[..|files| - 1], statuses[..|statuses| - 1])
  }

  /** Compared with a base, the tables have these request and protocol rows, the linked rows of
      these SURLs, and nothing else. */
  ghost predicate Stored(base: Tables, now: Tables, requests: seq<QueueRow>, kind: Kind, surls: seq<Surl>, rid: nat,
                         protocols: seq<ProtocolRow>)
  {
    && now.queue == base.queue + requests && now.protocols == base.protocols + protocols
    && base.dirs <= now.dirs && base.files <= now.files && base.statuses <= now.statuses
    && Linked(kind, surls, rid, now.dirs[|base.dirs|..], now.files[|base.files|..], now.statuses[|base.statuses|..])
  }

  /** The protocol rows: those whose statement does not fail, in order. */
  function StoredProtocols(protocols: seq<string>, rid: nat, n: nat, fails: nat -> bool): seq<ProtocolRow> {
    if protocols == [] then []
    else
      var m := |protocols| - 1;
      StoredProtocols(protocols[..m], rid, n, fails)
      + (if fails(n + m) then [] else [ProtocolRow(rid, protocols[m])])
  }

  /** Of the i statements from number n on, those that succeed. */
  function Successes(n: nat, i: nat, fails: nat -> bool): set<nat> { set j: nat | n <= j < n + i && !fails(j) }

  /** One row for each protocol whose statement succeeds, in the order of the protocols: the row of
      protocol i stands behind as many others as statements before its own succeed. */
  ghost predicate EachStored(protocols: seq<string>, rid: nat, n: nat, fails: nat -> bool, rows: seq<ProtocolRow>) {
    && |rows| == |Successes(n, |protocols|, fails)|
    && forall i :: 0 <= i < |protocols| && !fails(n + i) ==>
         |Successes(n, i, fails)| < |rows| && rows[|Successes(n, i, fails)|] == ProtocolRow(rid, protocols[i])
  }

  lemma OneMoreSuccess(n: nat, i: nat, fails: nat -> bool)
    ensures |Successes(n, i + 1, fails)| == |Successes(n, i, fails)| + (if fails(n + i) then 0 else 1)
  {
    var before := Successes(n, i, fails);
    if fails(n + i) {
      assert Successes(n, i + 1, fails) == before;
    } else {
      assert Successes(n, i + 1, fails) == before + {n + i};
    }
  }

  lemma {:induction false} StoredProtocolsAre(protocols: seq<string>, rid: nat, n: nat, fails: nat -> bool)
    ensures EachStored(protocols, rid, n, fails, StoredProtocols(protocols, rid, n, fails))
  {
    if protocols == [] {
      assert Successes(n, 0, fails) == {};
    } else {
      var m := |protocols| - 1;
      StoredProtocolsAre(protocols[..m], rid, n, fails);
      OneMoreSuccess(n, m, fails);
      hide Successes;
    }
  }

  predicate AllFailed(surls: seq<Surl>) { forall surl :: surl in surls ==> surl.status == FAILURE }

  function CountFailed(surls: seq<Surl>): (n: nat)
    ensures n <= |surls|
    ensures n == |surls| <==> AllFailed(surls)
  {
    if surls == [] then 0
    else
      var m := |surls| - 1;
      CountFailed(surls[..m]) + (if surls[m].status == FAILURE then 1 else 0)
  }

  predicate AllQueued(surls: seq<Surl>) { forall i :: 0 <= i < |surls| ==> surls[i].status == REQUEST_QUEUED }

  datatype InsertOutcome = Inserted | MysqlException | LogicError(what: string)

  datatype FileStatus = FileStatus(surl: string, status: StatusCode, explanation: string)

  datatype Response = Response(
    status: StatusCode, explanation: string, files: seq<FileStatus>, token: Option<string>)

  function StatusOf(surl: Surl): FileStatus { FileStatus(surl.url, surl.status, surl.explanation) }

  /** The entry of each SURL has its own URL, status and explanation. */
  predicate Describe(files: seq<FileStatus>, surls: seq<Surl>) {
    && |files| == |surls|
    && forall i :: 0 <= i < |files| ==>
         && files[i].surl == surls[i].url
         && files[i].status == surls[i].status
         && files[i].explanation == surls[i].explanation
  }

  function StatusesOf(surls: seq<Surl>): (files: seq<FileStatus>)
    ensures Describe(files, surls)
  {
    if surls == [] then []
    else StatusesOf(surls[..|surls| - 1]) + [StatusOf(surls[|surls| - 1])]
  }

  /** A request token that is not set is not reported. */
  function Reported(token: string): Option<string> { if token == "" then None else Some(token) }

  function TokenMissing(kind: Kind): string {
    match kind
    case PtG => "Unable to store PTG request into the DB: request token empty"
    case PtP => "Unable to store PTP request into the DB: request token empty"
    case BoL => "Unable to store BOL request into the DB: request token empty"
  }

  /** setGenericFailureSurls: every SURL is marked FAILURE and otherwise as it was. */
  predicate GenericallyFailed(given: seq<Surl>, now: seq<Surl>) {
    |now| == |given| && forall i :: 0 <= i < |now| ==> now[i] == given[i].(status := FAILURE)
  }

  class FileRequest {
    const kind: Kind
    var surls: seq<Surl>
    var protocols: seq<string>
    var token: string
    var status: StatusCode
    var explanation: string
    var builtResponse: Option<Response>

    /** A request as load leaves it: every SURL is queued (Surl.hpp). */
    constructor (kind: Kind, urls: seq<(string, Option<DirOption>)>, protocols: seq<string>)
      ensures Fresh() && this.kind == kind && this.protocols == protocols
      ensures |surls| == |urls|
      ensures forall i :: 0 <= i < |urls| ==>
        surls[i].url == urls[i].0 && surls[i].dirOption == urls[i].1 && surls[i].explanation == ""
    {
      this.kind, this.protocols := kind, protocols;
      surls := seq(|urls|, i requires 0 <= i < |urls| => Surl(urls[i].0, urls[i].1, REQUEST_QUEUED, ""));
      token, status, explanation, builtResponse := "", REQUEST_QUEUED, "", None;
    }

    predicate Fresh()
      reads this
    {
      && token == "" && status == REQUEST_QUEUED && explanation == "" && builtResponse == None
      && AllQueued(surls)
    }

    method SetRequestToken(text: string)
      modifies this`token
      ensures token == Escape(text)
    {
      token := EscapeSql(text);
    }

    method SetGenericFailureSurls()
      modifies this`surls
      ensures GenericallyFailed(old(surls), surls)
      ensures |surls| == |old(surls)|
      ensures forall i :: 0 <= i < |surls| ==>
        && surls[i].status == FAILURE && surls[i].url == old(surls)[i].url
        && surls[i].explanation == old(surls)[i].explanation && surls[i].dirOption == old(surls)[i].dirOption
    {
      var all := surls;
      for i := 0 to |all|
        invariant |all| == |surls| && surls == old(surls)
        invariant forall j :: 0 <= j < i ==> all[j] == surls[j].(status := FAILURE)
        invariant forall j :: i <= j < |all| ==> all[j] == surls[j]
      {
        all := all[i := all[i].(status := FAILURE)];
      }
      surls := all;
    }

    method FailRequest(why: string)
      modifies this`surls, this`status, this`explanation
      ensures status == FAILURE && explanation == why
      ensures GenericallyFailed(old(surls), surls)
    {
      status := FAILURE;
      explanation := why;
      SetGenericFailureSurls();
    }

    /** buildResponse: built once, then returned again. */
    method BuildResponse() returns (response: Response)
      modifies this`builtResponse
      ensures builtResponse == Some(response)
      ensures old(builtResponse).Some? ==> response == old(builtResponse).value
      ensures old(builtResponse).None? ==>
        response == Response(status, explanation, StatusesOf(surls), Reported(token))
      ensures old(builtResponse).None? ==>
        && Describe(response.files, surls)
        && response.token == (if token == "" then None else Some(token))
    {
      if builtResponse.Some? {
        return builtResponse.value;
      }
      var files := [];
      for i := 0 to |surls|
        invariant builtResponse == old(builtResponse)
        invariant files == StatusesOf(surls[..i])
      {
        files := files + [StatusOf(surls[i])];
        assert surls[..i + 1][..i] == surls[..i];
      }
      assert surls[..|surls|] == surls;
      response := Response(status, explanation, files, Reported(token));
      builtResponse := Some(response);
    }

    method BuildSpecificResponse(code: StatusCode, why: string) returns (response: Response)
      modifies this`builtResponse, this`status, this`explanation
      ensures status == code && explanation == why
      ensures old(builtResponse).None? ==>
        response == Response(code, why, StatusesOf(surls), Reported(token)) && Describe(response.files, surls)
    {
      status := code;
      explanation := why;
      response := BuildResponse();
    }

    /** What insertIntoDB does about a SURL one of whose statements failed. */
    method GiveUp(db: Connection, i: nat, ghost before: Tables)
      requires db.Valid() && db.trStarted && i < |surls|
      requires OnTop(db.savepoints, SavepointName(kind), before)
      modifies this`surls, db`working, db`savepoints
      ensures db.Valid() && db.working == before
      ensures surls == old(surls)[i := Failed(old(surls[i]))]
    {
      surls := surls[i := Failed(surls[i])];
      db.RollbackToSavepoint(SavepointName(kind));
    }

    /** One pass of the SURL loop of insertIntoDB. */
    method StoreSurl(db: Connection, i: nat, rid: nat) returns (ok: bool)
      requires db.Valid() && db.trStarted && i < |surls|
      modifies this`surls, db`working, db`savepoints, db`ids, db`clock
      ensures db.Valid()
      ensures ok <==> Succeeds(kind, old(surls[i]), old(db.clock), db.fails)
      ensures surls == if ok then old(surls) else old(surls)[i := Failed(old(surls[i]))]
      ensures SurlEffect(kind, old(surls[i]), rid, db.fails, old(db.working), old(db.ids), old(db.clock),
                         db.working, db.ids, db.clock)
    {
      hide WellFormed, OnTop, Without, LastNamed;
      ghost var before := db.working;
      var surl := surls[i];
      db.SetSavepoint(SavepointName(kind));
      SetOnTop(db.savepoints, SavepointName(kind), before);
      var dirId := None;
      if HasDirOption(kind, surl) {
        dirId := db.Execute(DirStatement(kind, surl.dirOption.value));
        if dirId.None? {
          GiveUp(db, i, before);
          return false;
        }
      }
      var fileId := db.Execute(InsertFile(surl.url, rid, dirId));
      if fileId.None? {
        GiveUp(db, i, before);
        return false;
      }
      var statusId := db.Execute(InsertStatus(fileId.value, REQUEST_QUEUED));
      if statusId.None? {
        GiveUp(db, i, before);
        return false;
      }
      return true;
    }

    /** The protocol loop of insertIntoDB: a failing row is skipped. */
    method StoreProtocols(db: Connection, rid: nat)
      requires db.Valid() && db.trStarted && WellFormed(db.working, db.ids) && rid < db.ids.queue
      modifies db`working, db`ids, db`clock
      ensures db.Valid() && WellFormed(db.working, db.ids)
      ensures db.working == WithProtocols(old(db.working), StoredProtocols(protocols, rid, old(db.clock), db.fails))
      ensures old(db.working.protocols) <= db.working.protocols
      ensures EachStored(protocols, rid, old(db.clock), db.fails,
                         db.working.protocols[|old(db.working.protocols)|..])
    {
      hide WellFormed;
      ghost var before, n := db.working, db.clock;
      for i := 0 to |protocols|
        invariant db.Valid() && WellFormed(db.working, db.ids) && rid < db.ids.queue
        invariant db.clock == n + i
        invariant db.working == WithProtocols(before, StoredProtocols(protocols[..i], rid, n, db.fails))
      {
        var row := InsertProtocol(rid, protocols[i]);
        InsertKeepsWellFormed(db.working, db.ids, row);
        var id := db.Execute(row);
        assert protocols[..i + 1][..i] == protocols[..i];
      }
      assert protocols[..|protocols|] == protocols;
      StoredProtocolsAre(protocols, rid, n, db.fails);
      ConcatParts(before.protocols, StoredProtocols(protocols, rid, n, db.fails));
      hide EachStored, StoredProtocols;
    }

    /** The SURL loop of insertIntoDB. */
    method StoreSurls(db: Connection, rid: nat) returns (failedCount: int)
      requires db.Valid() && db.trStarted && WellFormed(db.working, db.ids) && rid < db.ids.queue
      requires AllQueued(surls)
      modifies this`surls, db`working, db`savepoints, db`ids, db`clock
      ensures db.Valid() && |surls| == |old(surls)|
      ensures Passed(kind, old(surls), rid, old(db.clock), db.fails, old(db.working), old(db.ids), |surls|,
                     Pass(surls, db.working, db.ids, db.clock, failedCount))
    {
      hide WellFormed, Passed, SurlEffect;
      ghost var given, start, ids, n := surls, db.working, db.ids, db.clock;
      failedCount := 0;
      var i := 0;
      NoPassYet(kind, given, rid, n, db.fails, start, ids);
      while i < |surls|
        invariant i <= |surls| == |given| && db.Valid() && db.trStarted
        invariant Passed(kind, given, rid, n, db.fails, start, ids, i,
                         Pass(surls, db.working, db.ids, db.clock, failedCount))
      {
        ghost var before := Pass(surls, db.working, db.ids, db.clock, failedCount);
        var ok := StoreSurl(db, i, rid);
        if !ok {
          failedCount := failedCount + 1;
        }
        OnePass(kind, given, rid, n, db.fails, start, ids, i, before, db.working, db.ids, db.clock);
        i := i + 1;
      }
    }

    /** insertIntoDB. A failing first statement is an exception and leaves everything as it was.
        Otherwise each SURL's own statements decide its status, and what is committed follows from
        the statuses: nothing if all are FAILURE. */
    method InsertIntoDB(db: Connection) returns (outcome: InsertOutcome)
      requires db.Valid() && WellFormed(db.working, db.ids)
      requires status == REQUEST_QUEUED && AllQueued(surls)
      modifies this`surls, this`status, this`explanation, db
      ensures db.Valid() && WellFormed(db.working, db.ids)
      ensures outcome.LogicError? <==> token == ""
      ensures outcome.LogicError? ==> unchanged(this) && unchanged(db) && outcome.what == TokenMissing(kind)
      ensures !outcome.LogicError? ==> !db.trStarted
      ensures outcome.MysqlException? <==> token != "" && db.fails(old(db.clock))
      ensures outcome.MysqlException? ==>
        && db.committed == old(db.working) && status == FAILURE
        && GenericallyFailed(old(surls), surls)
      ensures outcome.Inserted? ==>
        && Submitted(kind, old(surls), surls, protocols, old(db.clock) + 1, db.fails,
                     QueueRow(old(db.ids.queue), TypeCode(kind), token, REQUEST_QUEUED, |surls|),
                     old(db.working), db.committed)
        && status == (if AllFailed(surls) then FAILURE else REQUEST_QUEUED)
        && explanation == (if AllFailed(surls) then "All files requests are failed" else old(explanation))
    {
      hide WellFormed, Submitted, AllFailed, CountFailed, GenericallyFailed;
      if token == "" {
        return LogicError(TokenMissing(kind));
      }
      var inserted := InsertRequest(db);
      return if inserted then Inserted else MysqlException;
    }

    /** insertIntoDB after the test of the token; false where it throws mysql_exception. */
    method InsertRequest(db: Connection) returns (inserted: bool)
      requires db.Valid() && WellFormed(db.working, db.ids)
      requires status == REQUEST_QUEUED && AllQueued(surls)
      modifies this`surls, this`status, this`explanation, db
      ensures db.Valid() && !db.trStarted && WellFormed(db.working, db.ids)
      ensures inserted <==> !db.fails(old(db.clock))
      ensures !inserted ==>
        db.committed == old(db.working) && status == FAILURE && GenericallyFailed(old(surls), surls)
      ensures inserted ==>
        && Submitted(kind, old(surls), surls, protocols, old(db.clock) + 1, db.fails,
                     QueueRow(old(db.ids.queue), TypeCode(kind), token, REQUEST_QUEUED, |surls|),
                     old(db.working), db.committed)
        && status == (if AllFailed(surls) then FAILURE else REQUEST_QUEUED)
        && explanation == (if AllFailed(surls) then ALL_FAILED else old(explanation))
    {
      hide WellFormed, Submitted, AllFailed, CountFailed, GenericallyFailed;
      ghost var base, ids := db.working, db.ids;
      db.StartTransaction();
      var request := InsertQueue(TypeCode(kind), token, status, |surls|);
      InsertKeepsWellFormed(base, ids, request);
      var requestId := db.Execute(request);
      if requestId.None? {
        db.AbortTransaction();
        FailRequest("Error writing the request on StoRM DB");
        return false;
      }
      CountersMayAdvance(base, ids, db.ids);
      ghost var row := QueueRow(requestId.value, TypeCode(kind), token, status, |surls|);
      StoreFiles(db, requestId.value, base, row);
      return true;
    }

    /** The part of insertIntoDB after the request row. */
    method StoreFiles(db: Connection, rid: nat, ghost base: Tables, ghost row: QueueRow)
      requires db.Valid() && db.trStarted && WellFormed(db.working, db.ids) && row.id == rid < db.ids.queue
      requires db.committed == base && WellFormed(base, db.ids)
      requires db.working == base.(queue := base.queue + [row])
      requires AllQueued(surls)
      modifies this`surls, this`status, this`explanation, db
      ensures db.Valid() && !db.trStarted && WellFormed(db.working, db.ids)
      ensures |surls| == |old(surls)|
      ensures Submitted(kind, old(surls), surls, protocols, old(db.clock), db.fails, row, base, db.committed)
      ensures status == if AllFailed(surls) then FAILURE else old(status)
      ensures explanation == if AllFailed(surls) then ALL_FAILED else old(explanation)
    {
      hide WellFormed, Passed, Submitted;
      ghost var given, start, ids, n := surls, db.working, db.ids, db.clock;
      var failedCount := StoreSurls(db, rid);
      ghost var last := Pass(surls, db.working, db.ids, db.clock, failedCount);
      assert Passed(kind, given, rid, n, db.fails, start, ids, |surls|, last);
      ThenSubmitted(kind, given, protocols, n, db.fails, row, base, start, ids, last);
      CountersMayAdvance(base, ids, db.ids);
      FinishInsertion(db, rid, failedCount);
    }

    /** The end of insertIntoDB: nothing is kept if every SURL failed. */
    method FinishInsertion(db: Connection, rid: nat, failedCount: int)
      requires db.Valid() && db.trStarted && rid < db.ids.queue
      requires WellFormed(db.working, db.ids) && WellFormed(db.committed, db.ids)
      modifies this`status, this`explanation, db
      ensures db.Valid() && !db.trStarted && WellFormed(db.working, db.ids)
      ensures failedCount == |surls| ==>
        && db.committed == old(db.committed)
        && status == FAILURE && explanation == ALL_FAILED
      ensures failedCount != |surls| ==>
        && status == old(status) && explanation == old(explanation)
        && db.committed == WithProtocols(old(db.working), StoredProtocols(protocols, rid, old(db.clock), db.fails))
    {
      hide WellFormed;
      if failedCount == |surls| {
        db.AbortTransaction();
        status := FAILURE;
        explanation := ALL_FAILED;
      } else {
        StoreProtocols(db, rid);
      }
      db.EndTransaction();
    }
  }

  /** The latest savepoint has this name and these tables. */
  predicate OnTop(savepoints: seq<(string, Tables)>, name: string, t: Tables) {
    savepoints != [] && savepoints[|savepoints| - 1] == (name, t)
  }

  lemma SetOnTop(savepoints: seq<(string, Tables)>, name: string, t: Tables)
    requires exists others :: savepoints == others + [(name, t)]
    ensures OnTop(savepoints, name, t)
  {
  }

  /** The tables with the rows of one more SURL. */
  function WithSurl(t: Tables, ids: Ids, kind: Kind, surl: Surl, rid: nat): Tables {
    t.(dirs := t.dirs + NewDirs(ids, kind, surl),
       files := t.files + [NewFile(ids, kind, surl, rid)],
       statuses := t.statuses + [StatusRow(ids.status, ids.file, REQUEST_QUEUED)])
  }

  function IdsAfterSurl(ids: Ids, kind: Kind, surl: Surl): Ids {
    ids.(dir := if HasDirOption(kind, surl) then ids.dir + 1 else ids.dir,
         file := ids.file + 1, status := ids.status + 1)
  }

  // ----- the loop over the SURLs, on values -----

  /** What one pass does to the tables, the counters and the statement clock. */
  ghost predicate SurlEffect(kind: Kind, surl: Surl, rid: nat, fails: nat -> bool,
                             t: Tables, ids: Ids, clock: nat, t': Tables, ids': Ids, clock': nat)
  {
    && clock' == clock + Executed(kind, surl, clock, fails)
    && ids'.queue == ids.queue && NotBelow(ids, ids')
    && if Succeeds(kind, surl, clock, fails)
       then t' == WithSurl(t, ids, kind, surl, rid) && NotBelow(IdsAfterSurl(ids, kind, surl), ids')
       else t' == t
  }

  datatype Pass = Pass(surls: seq<Surl>, tables: Tables, ids: Ids, clock: nat, failedCount: int)

  /** What becomes of SURL i: it is marked FAILURE exactly if one of its own statements fails. */
  function OutcomeAt(kind: Kind, given: seq<Surl>, i: nat, n: nat, fails: nat -> bool): Surl
    requires i < |given|
  {
    if Succeeds(kind, given[i], ClockAt(kind, given, i, n, fails), fails) then given[i] else Failed(given[i])
  }

  /** The first i SURLs have their outcome, and the others are untouched. */
  ghost predicate Marked(kind: Kind, given: seq<Surl>, now: seq<Surl>, i: nat, n: nat, fails: nat -> bool) {
    && i <= |given| == |now|
    && (forall j {:trigger now[j]} :: 0 <= j < i ==> now[j] == OutcomeAt(kind, given, j, n, fails))
    && (forall j {:trigger now[j]} :: i <= j < |given| ==> now[j] == given[j])
  }

  /** The state after i passes. */
  ghost predicate Passed(kind: Kind, given: seq<Surl>, rid: nat, n: nat, fails: nat -> bool,
                         start: Tables, ids: Ids, i: nat, pass: Pass)
  {
    match pass
    case Pass(now, t, ids', clock, failedCount) =>
      && AllQueued(given) && rid < ids.queue == ids'.queue
      && Marked(kind, given, now, i, n, fails)
      && clock == ClockAt(kind, given, i, n, fails)
      && failedCount == CountFailed(now[..i])
      && WellFormed(t, ids') && NotBelow(ids, ids')
      && Stored(start, t, [], kind, now[..i], rid, [])
  }

  lemma NoPassYet(kind: Kind, given: seq<Surl>, rid: nat, n: nat, fails: nat -> bool, start: Tables, ids: Ids)
    requires AllQueued(given) && rid < ids.queue && WellFormed(start, ids)
    ensures Passed(kind, given, rid, n, fails, start, ids, 0, Pass(given, start, ids, n, 0))
  {
    hide WellFormed;
    assert given[..0] == [];
  }

  lemma OnePass(kind: Kind, given: seq<Surl>, rid: nat, n: nat, fails: nat -> bool, start: Tables, ids: Ids,
                i: nat, before: Pass, t: Tables, ids': Ids, clock: nat)
    requires Passed(kind, given, rid, n, fails, start, ids, i, before) && i < |before.surls|
    requires SurlEffect(kind, before.surls[i], rid, fails, before.tables, before.ids, before.clock, t, ids', clock)
    ensures var ok := Succeeds(kind, before.surls[i], before.clock, fails);
      Passed(kind, given, rid, n, fails, start, ids, i + 1, Pass(
        if ok then before.surls else before.surls[i := Failed(before.surls[i])],
        t, ids', clock, if ok then before.failedCount else before.failedCount + 1))
  {
    hide WellFormed, Stored, Marked, Passed;
    if Succeeds(kind, before.surls[i], before.clock, fails) {
      PassSucceeds(kind, given, rid, n, fails, start, ids, i, before, t, ids', clock);
    } else {
      PassFails(kind, given, rid, n, fails, start, ids, i, before, t, ids', clock);
    }
  }

  lemma PassSucceeds(kind: Kind, given: seq<Surl>, rid: nat, n: nat, fails: nat -> bool, start: Tables, ids: Ids,
                     i: nat, before: Pass, t: Tables, ids': Ids, clock: nat)
    requires Passed(kind, given, rid, n, fails, start, ids, i, before) && i < |before.surls|
    requires SurlEffect(kind, before.surls[i], rid, fails, before.tables, before.ids, before.clock, t, ids', clock)
    requires Succeeds(kind, before.surls[i], before.clock, fails)
    ensures Passed(kind, given, rid, n, fails, start, ids, i + 1,
                   Pass(before.surls, t, ids', clock, before.failedCount))
  {
    hide WellFormed, Stored, Marked, CountFailed, Executed;
    MarkedAt(kind, given, before.surls, i, n, fails);
    assert before.surls[i].status != FAILURE && !AlwaysMalformed(kind, before.surls[i]);
    hide AllQueued, Succeeds;
    PassMarks(kind, given, before.surls, i, n, fails);
    assert before.surls[i := before.surls[i]] == before.surls;
    PassCounts(before.surls, before.surls, i);
    WithSurlKeepsWellFormed(before.tables, before.ids, kind, before.surls[i], rid);
    CountersMayAdvance(t, IdsAfterSurl(before.ids, kind, before.surls[i]), ids');
    AddStored(start, before.tables, before.ids, kind, before.surls, i, rid);
  }

  lemma PassFails(kind: Kind, given: seq<Surl>, rid: nat, n: nat, fails: nat -> bool, start: Tables, ids: Ids,
                  i: nat, before: Pass, t: Tables, ids': Ids, clock: nat)
    requires Passed(kind, given, rid, n, fails, start, ids, i, before) && i < |before.surls|
    requires SurlEffect(kind, before.surls[i], rid, fails, before.tables, before.ids, before.clock, t, ids', clock)
    requires !Succeeds(kind, before.surls[i], before.clock, fails)
    ensures Passed(kind, given, rid, n, fails, start, ids, i + 1,
                   Pass(before.surls[i := Failed(before.surls[i])], t, ids', clock, before.failedCount + 1))
  {
    hide WellFormed, Stored, Marked, AllQueued, CountFailed, Succeeds, Executed;
    MarkedAt(kind, given, before.surls, i, n, fails);
    PassMarks(kind, given, before.surls, i, n, fails);
    var now := before.surls[i := Failed(before.surls[i])];
    PassCounts(before.surls, now, i);
    CountersMayAdvance(t, before.ids, ids');
    SkipStored(start, t, kind, before.surls, now, i, rid);
  }

  lemma MarkedAt(kind: Kind, given: seq<Surl>, now: seq<Surl>, i: nat, n: nat, fails: nat -> bool)
    requires Marked(kind, given, now, i, n, fails) && i < |now|
    ensures |now| == |given| && now[i] == given[i]
  {
  }

  lemma PassMarks(kind: Kind, given: seq<Surl>, now: seq<Surl>, i: nat, n: nat, fails: nat -> bool)
    requires Marked(kind, given, now, i, n, fails) && i < |now|
    ensures Marked(kind, given, now[i := OutcomeAt(kind, given, i, n, fails)], i + 1, n, fails)
  {
  }

  lemma PassCounts(before: seq<Surl>, now: seq<Surl>, i: nat)
    requires i < |now| == |before| && now[..i] == before[..i]
    ensures CountFailed(now[..i + 1]) == CountFailed(before[..i]) + (if now[i].status == FAILURE then 1 else 0)
  {
    assert now[..i + 1][..i] == now[..i];
  }

  function NewDirs(ids: Ids, kind: Kind, surl: Surl): seq<DirRow> {
    if HasDirOption(kind, surl) then
      var option := surl.dirOption.value;
      [DirRow(ids.dir, option.isDirectory, option.allLevels,
              if option.numLevels > 0 then Some(option.numLevels) else None)]
    else []
  }

  function NewFile(ids: Ids, kind: Kind, surl: Surl, rid: nat): FileRow {
    FileRow(ids.file, surl.url, rid, if HasDirOption(kind, surl) then Some(ids.dir) else None)
  }

  lemma LinkedOneMore(kind: Kind, surls: seq<Surl>, surl: Surl, rid: nat, dirs: seq<DirRow>, files: seq<FileRow>,
                      statuses: seq<StatusRow>, dirs': seq<DirRow>, file: FileRow, status: StatusRow)
    requires Linked(kind, surls, rid, dirs, files, statuses) && surl.status != FAILURE
    requires LastLinked(kind, surl, rid, dirs', files + [file], statuses + [status])
    requires dirs == if LastHasDir(kind, surl, dirs') then dirs'[..|dirs'| - 1] else dirs'
    ensures Linked(kind, surls + [surl], rid, dirs', files + [file], statuses + [status])
  {
    hide LastLinked, LastHasDir;
    ConcatParts(surls, [surl]);
    ConcatParts(files, [file]);
    ConcatParts(statuses, [status]);
  }

  /** The rows of one more queued SURL extend the linked rows. */
  lemma LinkedExtends(kind: Kind, surls: seq<Surl>, surl: Surl, ids: Ids, rid: nat,
                      dirs: seq<DirRow>, files: seq<FileRow>, statuses: seq<StatusRow>)
    requires Linked(kind, surls, rid, dirs, files, statuses)
    requires surl.status != FAILURE && !AlwaysMalformed(kind, surl)
    ensures Linked(kind, surls + [surl], rid, dirs + NewDirs(ids, kind, surl), files + [NewFile(ids, kind, surl, rid)],
                   statuses + [StatusRow(ids.status, ids.file, REQUEST_QUEUED)])
  {
    hide Linked;
    var file, status := NewFile(ids, kind, surl, rid), StatusRow(ids.status, ids.file, REQUEST_QUEUED);
    var added := NewDirs(ids, kind, surl);
    ConcatParts(dirs, added);
    assert (files + [file])[|files|] == file && (statuses + [status])[|statuses|] == status;
    assert HasDirOption(kind, surl) ==> (dirs + added)[|dirs|] == added[0];
    assert !HasDirOption(kind, surl) ==> dirs + added == dirs;
    LinkedOneMore(kind, surls, surl, rid, dirs, files, statuses, dirs + added, file, status);
  }

  lemma AddStored(start: Tables, t: Tables, ids: Ids, kind: Kind, surls: seq<Surl>, i: nat, rid: nat)
    requires i < |surls| && Stored(start, t, [], kind, surls[..i], rid, [])
    requires surls[i].status != FAILURE && !AlwaysMalformed(kind, surls[i])
    ensures Stored(start, WithSurl(t, ids, kind, surls[i], rid), [], kind, surls[..i + 1], rid, [])
  {
    var dirs, files, statuses := NewDirs(ids, kind, surls[i]), [NewFile(ids, kind, surls[i], rid)],
      [StatusRow(ids.status, ids.file, REQUEST_QUEUED)];
    assert surls[..i + 1] == surls[..i] + [surls[i]];
    hide Linked, NewDirs, NewFile;
    LinkedExtends(kind, surls[..i], surls[i], ids, rid, t.dirs[|start.dirs|..], t.files[|start.files|..],
                  t.statuses[|start.statuses|..]);
    AppendAfterPrefix(start.dirs, t.dirs, dirs);
    AppendAfterPrefix(start.files, t.files, files);
    AppendAfterPrefix(start.statuses, t.statuses, statuses);
  }

  /** A SURL marked FAILURE adds nothing. */
  lemma SkipStored(start: Tables, t: Tables, kind: Kind, before: seq<Surl>, now: seq<Surl>, i: nat, rid: nat)
    requires i < |now| == |before| && now[..i] == before[..i] && now[i].status == FAILURE
    requires Stored(start, t, [], kind, before[..i], rid, [])
    ensures Stored(start, t, [], kind, now[..i + 1], rid, [])
  {
    assert now[..i + 1][..i] == before[..i];
  }

  /** The result of a submission whose request row was accepted: statuses and committed tables. */
  ghost predicate Submitted(kind: Kind, given: seq<Surl>, now: seq<Surl>, protocols: seq<string>,
                            n: nat, fails: nat -> bool, row: QueueRow, base: Tables, committed: Tables)
  {
    && Marked(kind, given, now, |given|, n, fails)
    && if AllFailed(now) then committed == base
       else Stored(base, committed, [row], kind, now, row.id,
                   StoredProtocols(protocols, row.id, ClockAt(kind, given, |given|, n, fails), fails))
  }

  function WithProtocols(t: Tables, rows: seq<ProtocolRow>): Tables { t.(protocols := t.protocols + rows) }

  lemma ThenSubmitted(kind: Kind, given: seq<Surl>, protocols: seq<string>, n: nat, fails: nat -> bool,
                      row: QueueRow, base: Tables, start: Tables, ids: Ids, last: Pass)
    requires Passed(kind, given, row.id, n, fails, start, ids, |last.surls|, last)
    requires start == base.(queue := base.queue + [row])
    ensures last.failedCount == |last.surls| <==> AllFailed(last.surls)
    ensures WellFormed(last.tables, last.ids) && NotBelow(ids, last.ids) && row.id < last.ids.queue
    ensures Submitted(kind, given, last.surls, protocols, n, fails, row, base,
      if AllFailed(last.surls) then base
      else WithProtocols(last.tables, StoredProtocols(protocols, row.id, last.clock, fails)))
  {
    hide WellFormed, Stored, Marked;
    assert last.surls[..|last.surls|] == last.surls;
    Rebase(base, row, start, last.tables, kind, last.surls,
           StoredProtocols(protocols, row.id, last.clock, fails));
    MarkedLength(kind, given, last.surls, n, fails);
  }

  lemma MarkedLength(kind: Kind, given: seq<Surl>, now: seq<Surl>, n: nat, fails: nat -> bool)
    requires Marked(kind, given, now, |given|, n, fails) || Marked(kind, given, now, |now|, n, fails)
    ensures |now| == |given|
  {
  }

  /** The request row and the protocol rows on top of the linked rows. */
  lemma Rebase(base: Tables, row: QueueRow, start: Tables, t: Tables, kind: Kind, surls: seq<Surl>,
               protocols: seq<ProtocolRow>)
    requires start == base.(queue := base.queue + [row]) && Stored(start, t, [], kind, surls, row.id, [])
    ensures Stored(base, WithProtocols(t, protocols), [row], kind, surls, row.id, protocols)
  {
    hide Linked;
  }

  lemma WithSurlKeepsWellFormed(t: Tables, ids: Ids, kind: Kind, surl: Surl, rid: nat)
    requires WellFormed(t, ids) && rid < ids.queue
    ensures WellFormed(WithSurl(t, ids, kind, surl, rid), IdsAfterSurl(ids, kind, surl))
  {
    hide WellFormed;
    if HasDirOption(kind, surl) {
      var option := surl.dirOption.value;
      var dir := InsertDir(option.isDirectory, option.allLevels,
                           if option.numLevels > 0 then Some(option.numLevels) else None);
      InsertKeepsWellFormed(t, ids, dir);
      WithFileKeepsWellFormed(Insert(t, ids, dir), NextIds(ids, dir), surl.url, rid, Some(ids.dir));
    } else {
      assert t.dirs + [] == t.dirs;
      WithFileKeepsWellFormed(t, ids, surl.url, rid, None);
    }
  }

  lemma WithFileKeepsWellFormed(t: Tables, ids: Ids, url: string, rid: nat, dirId: Option<nat>)
    requires WellFormed(t, ids) && rid < ids.queue && (dirId.Some? ==> dirId.value < ids.dir)
    ensures WellFormed(
      t.(files := t.files + [FileRow(ids.file, url, rid, dirId)],
         statuses := t.statuses + [StatusRow(ids.status, ids.file, REQUEST_QUEUED)]),
      ids.(file := ids.file + 1, status := ids.status + 1))
  {
    hide WellFormed;
    var file := InsertFile(url, rid, dirId);
    InsertKeepsWellFormed(t, ids, file);
    InsertKeepsWellFormed(Insert(t, ids, file), NextIds(ids, file), InsertStatus(ids.file, REQUEST_QUEUED));
  }
}
