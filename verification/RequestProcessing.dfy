/** From the token to the response (src/frontend/filerequest_template.hpp). */
module RequestProcessing {
  import opened Database
  import opened Protocols
  import opened Sequences
  import opened SqlString
  import opened Srm
  import opened StoredRequests
  import opened Submission
  import opened Wrappers

  const DATABASE_ERROR :=
    "Database error. Might be caused by a high load of the database server... try again later."

  predicate ExplainsDatabaseError(response: Response) {
    response.explanation
    == "Database error. Might be caused by a high load of the database server... try again later."
  }

  predicate ExplainsAllFailed(response: Response) { response.explanation == "All files requests are failed" }

  /** What the client is told and what is committed, once the protocols have been accepted. */
  ghost predicate Answered(kind: Kind, given: seq<Surl>, now: seq<Surl>, usable: seq<string>, token: string,
                           clock: nat, fails: nat -> bool, ids: Ids, base: Tables, committed: Tables,
                           response: Response)
  {
    && response.files == StatusesOf(now)
    && if token == "" then
         now == given && committed == base
         && response.status == NOT_SUPPORTED && response.explanation == TokenMissing(kind) && response.token == None
       else if fails(clock) then
         GenericallyFailed(given, now) && committed == base
         && response.status == INTERNAL_ERROR && ExplainsDatabaseError(response) && response.token == None
       else
         Submitted(kind, given, now, usable, clock + 1, fails,
                   QueueRow(ids.queue, TypeCode(kind), token, REQUEST_QUEUED, |now|), base, committed)
         && response.token == Some(token)
         && if AllFailed(now)
            then response.status == FAILURE && ExplainsAllFailed(response)
            else response.status == REQUEST_QUEUED && response.explanation == ""
  }

  // ----- the answer and the database -----

  /** How many SURLs the answer reports as queued. */
  function QueuedIn(files: seq<FileStatus>): (n: nat)
    ensures n <= |files|
  {
    if files == [] then 0
    else QueuedIn(files[..|files| - 1]) + (if files[|files| - 1].status == REQUEST_QUEUED then 1 else 0)
  }

  lemma {:induction false} QueuedInAnswer(surls: seq<Surl>)
    requires forall i :: 0 <= i < |surls| ==> surls[i].status == FAILURE || surls[i].status == REQUEST_QUEUED
    ensures QueuedIn(StatusesOf(surls)) == |surls| - CountFailed(surls)
  {
    if surls != [] {
      var m := |surls| - 1;
      QueuedInAnswer(surls[..m]);
      assert StatusesOf(surls)[..m] == StatusesOf(surls[..m]);
    }
  }

  /** The SURLs that the answer reports as queued, in order. */
  function QueuedSurls(files: seq<FileStatus>): (surls: seq<string>)
    ensures |surls| == QueuedIn(files)
  {
    if files == [] then []
    else
      var before, last := QueuedSurls(files[..|files| - 1]), files[|files| - 1];
      if last.status == REQUEST_QUEUED then before + [last.surl] else before
  }

  predicate ToldQueued(files: seq<FileStatus>, surl: string) {
    exists i :: 0 <= i < |files| && files[i].surl == surl && files[i].status == REQUEST_QUEUED
  }

  lemma {:induction false} QueuedSurlsAre(files: seq<FileStatus>)
    ensures forall surl :: surl in QueuedSurls(files) <==> ToldQueued(files, surl)
  {
    if files != [] {
      var m := |files| - 1;
      QueuedSurlsAre(files[..m]);
      forall surl
        ensures ToldQueued(files, surl) <==>
          ToldQueued(files[..m], surl) || (files[m].surl == surl && files[m].status == REQUEST_QUEUED)
      {
        assert forall i :: 0 <= i < m ==> files[..m][i] == files[i];
      }
      hide ToldQueued;
    }
  }

  /** They are the SURLs of the request that are not marked FAILURE. */
  lemma {:induction false} QueuedAsTold(files: seq<FileStatus>, surls: seq<Surl>)
    requires Describe(files, surls)
    requires forall i :: 0 <= i < |surls| ==> surls[i].status == FAILURE || surls[i].status == REQUEST_QUEUED
    ensures QueuedSurls(files) == QueuedUrls(surls)
  {
    if surls != [] {
      var m := |surls| - 1;
      assert Describe(files[..m], surls[..m]);
      assert files[m].surl == surls[m].url && files[m].status == surls[m].status;
      hide Describe, QueuedIn, CountFailed;
      QueuedAsTold(files[..m], surls[..m]);
    }
  }

  /** The database gained a file row of request rid with its queued status row for each URL, in order,
      and a row for each of the protocols whose statement (numbered from n on) succeeds, in order;
      so for all of them if none fails. */
  ghost predicate Gained(base: Tables, committed: Tables, rid: nat, urls: seq<string>, protocols: seq<string>,
                         n: nat, fails: nat -> bool)
  {
    && base.files <= committed.files && base.statuses <= committed.statuses && base.protocols <= committed.protocols
    && RowsOf(urls, committed.files[|base.files|..], committed.statuses[|base.statuses|..], rid)
    && var rows := committed.protocols[|base.protocols|..];
       && EachStored(protocols, rid, n, fails, rows)
       && Subsequence(ProtocolNames(rows), protocols)
       && ((forall j :: n <= j < n + |protocols| ==> !fails(j)) ==> ProtocolNames(rows) == protocols)
  }

  /** The answer has one entry per SURL of the request, under its own URL. */
  predicate AnswersEach(given: seq<Surl>, files: seq<FileStatus>) {
    |files| == |given| && forall i :: 0 <= i < |files| ==> files[i].surl == given[i].url
  }

  predicate QueuedOrFailed(files: seq<FileStatus>) {
    forall i :: 0 <= i < |files| ==>
      || files[i].status == REQUEST_QUEUED
      || (files[i].status == FAILURE && files[i].explanation == "Unable to store the request in StoRM DB")
  }

  /** The queued row of a request of this kind. */
  function RequestRow(kind: Kind, id: nat, token: string, nbreqfiles: nat): (row: QueueRow)
    ensures row.id == id && row.token == token && row.status == REQUEST_QUEUED && row.nbreqfiles == nbreqfiles
    ensures kind.PtG? ==> row.requestType == "PTG"
    ensures kind.PtP? ==> row.requestType == "PTP"
    ensures kind.BoL? ==> row.requestType == "BOL"
  {
    QueueRow(id, TypeCode(kind), token, REQUEST_QUEUED, nbreqfiles)
  }

  /** What the client is told agrees with what is committed. If the request is reported as queued,
      the database gained it: one request row; for exactly the SURLs that the response reports as
      queued, at least one, and in their order, a file row with its queued status row; and the
      supported protocols whose statements succeed, which follow those of the SURLs. With any
      other status the database is as it was. */
  ghost predicate Agrees(kind: Kind, given: seq<Surl>, now: seq<Surl>, usable: seq<string>, token: string,
                         clock: nat, fails: nat -> bool, ids: Ids, base: Tables, committed: Tables,
                         response: Response)
  {
    && response.files == StatusesOf(now) && AnswersEach(given, response.files)
    && if response.status != REQUEST_QUEUED then committed == base
       else
         && response.token == Some(token)
         && |QueuedUrls(now)| == QueuedIn(response.files) >= 1
         && QueuedOrFailed(response.files)
         && committed.queue == base.queue + [RequestRow(kind, ids.queue, token, |given|)]
         && Gained(base, committed, ids.queue, QueuedSurls(response.files), usable,
                   ClockAt(kind, given, |given|, clock + 1, fails), fails)
  }

  /** A submission that passed the protocol check. */
  lemma AnswerMatchesDatabase(kind: Kind, given: seq<Surl>, now: seq<Surl>, usable: seq<string>, token: string,
                              clock: nat, fails: nat -> bool, ids: Ids, base: Tables, committed: Tables,
                              response: Response)
    requires Answered(kind, given, now, usable, token, clock, fails, ids, base, committed, response)
    requires AllQueued(given)
    ensures Agrees(kind, given, now, usable, token, clock, fails, ids, base, committed, response)
  {
    hide ExplainsDatabaseError, ExplainsAllFailed, TokenMissing;
    if token == "" || fails(clock) {
      hide Describe, StatusesOf;
      NothingStored(kind, given, now, usable, token, clock, fails, ids, base, response);
    } else if AllFailed(now) {
      hide Describe, StatusesOf, OutcomeAt, AllFailed;
      MarkedUrls(kind, given, now, clock + 1, fails);
      NothingStored(kind, given, now, usable, token, clock, fails, ids, base, response);
    } else {
      hide Describe, StatusesOf, AllFailed, Submitted;
      SubmittedAgrees(kind, given, now, usable, token, clock, fails, ids, base, committed, response);
    }
  }

  /** Storing changes statuses, not URLs. */
  lemma MarkedUrls(kind: Kind, given: seq<Surl>, now: seq<Surl>, n: nat, fails: nat -> bool)
    requires Marked(kind, given, now, |given|, n, fails)
    ensures SameUrls(given, now)
    ensures AllQueued(given) ==> QueuedOrFailed(StatusesOf(now))
  {
    hide Succeeds, ClockAt, StatusesOf;
    forall i | 0 <= i < |now| ensures now[i].url == given[i].url {
      assert now[i] == OutcomeAt(kind, given, i, n, fails);
    }
    forall i | 0 <= i < |now| && AllQueued(given)
      ensures now[i].status == REQUEST_QUEUED
           || (now[i].status == FAILURE && now[i].explanation == "Unable to store the request in StoRM DB")
    {
      assert now[i] == OutcomeAt(kind, given, i, n, fails);
    }
  }

  predicate SameUrls(given: seq<Surl>, now: seq<Surl>) {
    |now| == |given| && forall i :: 0 <= i < |now| ==> now[i].url == given[i].url
  }

  lemma SubmittedAgrees(kind: Kind, given: seq<Surl>, now: seq<Surl>, usable: seq<string>, token: string,
                        clock: nat, fails: nat -> bool, ids: Ids, base: Tables, committed: Tables, response: Response)
    requires AllQueued(given) && !AllFailed(now)
    requires Submitted(kind, given, now, usable, clock + 1, fails,
                       QueueRow(ids.queue, TypeCode(kind), token, REQUEST_QUEUED, |now|), base, committed)
    requires response.status == REQUEST_QUEUED && response.files == StatusesOf(now) && response.token == Some(token)
    ensures Agrees(kind, given, now, usable, token, clock, fails, ids, base, committed, response)
  {
    var n := clock + 1;
    hide Stored, Marked, AllFailed, AllQueued, Gained, Linked, QueuedIn, CountFailed, QueuedOrFailed, ClockAt,
         StatusesOf, QueuedSurls;
    MarkedLength(kind, given, now, n, fails);
    MarkedUrls(kind, given, now, n, fails);
    OutcomesAreQueuedOrFailed(kind, given, now, n, fails);
    QueuedInAnswer(now);
    QueuedAsTold(response.files, now);
    StoredGains(kind, now, usable, ClockAt(kind, given, |given|, n, fails), fails,
                QueueRow(ids.queue, TypeCode(kind), token, REQUEST_QUEUED, |now|), base, committed);
  }

  lemma StoredGains(kind: Kind, now: seq<Surl>, usable: seq<string>, n: nat, fails: nat -> bool, row: QueueRow,
                    base: Tables, committed: Tables)
    requires Stored(base, committed, [row], kind, now, row.id, StoredProtocols(usable, row.id, n, fails))
    ensures committed.queue == base.queue + [row]
    ensures Gained(base, committed, row.id, QueuedUrls(now), usable, n, fails)
  {
    hide Linked, RowsOf, StoredProtocols, Subsequence, ProtocolNames, QueuedUrls, EachStored;
    LinkedRows(kind, now, row.id, committed.dirs[|base.dirs|..], committed.files[|base.files|..],
               committed.statuses[|base.statuses|..]);
    StoredProtocolsInOrder(usable, row.id, n, fails);
    StoredProtocolsAre(usable, row.id, n, fails);
    ConcatParts(base.protocols, StoredProtocols(usable, row.id, n, fails));
    if forall j :: n <= j < n + |usable| ==> !fails(j) {
      AllProtocolsStored(usable, row.id, n, fails, StoredProtocols(usable, row.id, n, fails));
    }
  }

  /** So the status tells whether the database gained the request. */
  lemma QueuedMeansStored(kind: Kind, given: seq<Surl>, now: seq<Surl>, usable: seq<string>, token: string,
                          clock: nat, fails: nat -> bool, ids: Ids, base: Tables, committed: Tables,
                          response: Response)
    requires Agrees(kind, given, now, usable, token, clock, fails, ids, base, committed, response)
    ensures response.status == REQUEST_QUEUED
       <==> committed.queue == base.queue + [RequestRow(kind, ids.queue, token, |given|)]
  {
  }

  lemma NothingStored(kind: Kind, given: seq<Surl>, now: seq<Surl>, usable: seq<string>, token: string,
                      clock: nat, fails: nat -> bool, ids: Ids, base: Tables, response: Response)
    requires SameUrls(given, now) && response.files == StatusesOf(now) && response.status != REQUEST_QUEUED
    ensures Agrees(kind, given, now, usable, token, clock, fails, ids, base, base, response)
  {
  }

  // ----- the methods -----

  /** The last part of __process_file_request: the insertion and its outcomes. */
  method SubmitChecked(request: FileRequest, db: Connection) returns (response: Response)
    requires request.status == REQUEST_QUEUED && request.explanation == "" && request.builtResponse == None
    requires AllQueued(request.surls)
    requires db.Valid() && db.committed == db.working && WellFormed(db.working, db.ids)
    modifies request, db
    ensures db.Valid() && db.committed == db.working && WellFormed(db.working, db.ids)
    ensures Answered(request.kind, old(request.surls), request.surls, old(request.protocols), old(request.token),
                     old(db.clock), db.fails, old(db.ids), old(db.committed), db.committed, response)
    ensures old(request.token) != "" && db.fails(old(db.clock)) ==> AllReportFailure(response)
  {
    hide WellFormed, Submitted, Answered, AllFailed, GenericallyFailed, StatusesOf, TokenMissing, AllQueued;
    ghost var kind, given, usable, token := request.kind, request.surls, request.protocols, request.token;
    ghost var clock, ids, base := db.clock, db.ids, db.committed;
    var outcome := request.InsertIntoDB(db);
    match outcome
    case MysqlException =>
      request.token := "";
      response := request.BuildSpecificResponse(INTERNAL_ERROR, DATABASE_ERROR);
      AnsweredByException(kind, given, request.surls, usable, token, clock, db.fails, ids, base, response);
      AllAreFailures(given, request.surls, response);
    case LogicError(what) =>
      request.token := "";
      response := request.BuildSpecificResponse(NOT_SUPPORTED, what);
      AnsweredWithoutToken(kind, given, usable, clock, db.fails, ids, base, response);
    case Inserted =>
      response := request.BuildResponse();
      AnsweredByInsertion(kind, given, request.surls, usable, token, clock, db.fails, ids, base, db.committed,
                          response);
  }

  predicate AllReportFailure(response: Response) {
    forall i :: 0 <= i < |response.files| ==> response.files[i].status == FAILURE
  }

  lemma AllAreFailures(given: seq<Surl>, now: seq<Surl>, response: Response)
    requires GenericallyFailed(given, now) && response.files == StatusesOf(now)
    ensures AllReportFailure(response)
  {
  }

  lemma AnsweredByException(kind: Kind, given: seq<Surl>, now: seq<Surl>, usable: seq<string>, token: string,
                            clock: nat, fails: nat -> bool, ids: Ids, base: Tables, response: Response)
    requires token != "" && fails(clock) && GenericallyFailed(given, now)
    requires response == Response(INTERNAL_ERROR, DATABASE_ERROR, StatusesOf(now), None)
    ensures Answered(kind, given, now, usable, token, clock, fails, ids, base, base, response)
  {
  }

  lemma AnsweredWithoutToken(kind: Kind, given: seq<Surl>, usable: seq<string>, clock: nat, fails: nat -> bool,
                             ids: Ids, base: Tables, response: Response)
    requires response == Response(NOT_SUPPORTED, TokenMissing(kind), StatusesOf(given), None)
    ensures Answered(kind, given, given, usable, "", clock, fails, ids, base, base, response)
  {
  }

  lemma AnsweredByInsertion(kind: Kind, given: seq<Surl>, now: seq<Surl>, usable: seq<string>, token: string,
                            clock: nat, fails: nat -> bool, ids: Ids, base: Tables, committed: Tables,
                            response: Response)
    requires token != "" && !fails(clock)
    requires Submitted(kind, given, now, usable, clock + 1, fails,
                       QueueRow(ids.queue, TypeCode(kind), token, REQUEST_QUEUED, |now|), base, committed)
    requires response == Response(if AllFailed(now) then FAILURE else REQUEST_QUEUED,
                                  if AllFailed(now) then ALL_FAILED else "", StatusesOf(now), Some(token))
    ensures Answered(kind, given, now, usable, token, clock, fails, ids, base, committed, response)
  {
  }

  /** The protocol check of __process_file_request; false if protocols were asked for and none of
      them is supported. */
  method DropUnsupportedProtocols(request: FileRequest, checker: ProtocolChecker) returns (usable: bool)
    modifies request`protocols
    ensures usable <==> Supported(old(request.protocols), checker.supported) != [] || old(request.protocols) == []
    ensures usable ==> request.protocols == Supported(old(request.protocols), checker.supported)
  {
    usable := true;
    var code := checker.CheckProtocols(request.protocols);
    if code != 0 {
      var kept := checker.RemoveUnsupportedProtocols(request.protocols);
      if kept == [] {
        return false;
      }
      request.protocols := kept;
    }
  }

  ghost predicate Unsupported(given: seq<Surl>, now: seq<Surl>, token: string, response: Response) {
    && GenericallyFailed(given, now)
    && response == Response(NOT_SUPPORTED, "No supported protocols provided.", StatusesOf(now), Reported(token))
  }

  lemma UnsupportedAgrees(kind: Kind, given: seq<Surl>, now: seq<Surl>, usable: seq<string>, token: string,
                          clock: nat, fails: nat -> bool, ids: Ids, base: Tables, response: Response)
    requires Unsupported(given, now, token, response)
    ensures Agrees(kind, given, now, usable, token, clock, fails, ids, base, base, response)
  {
    hide StatusesOf, Describe;
    NothingStored(kind, given, now, usable, token, clock, fails, ids, base, response);
  }

  /** The answer to a request none of whose protocols is supported. */
  method RefuseProtocols(request: FileRequest) returns (response: Response)
    requires request.builtResponse == None
    modifies request`surls, request`status, request`explanation, request`builtResponse
    ensures Unsupported(old(request.surls), request.surls, request.token, response)
    ensures response.status == NOT_SUPPORTED && AllReportFailure(response)
  {
    request.SetGenericFailureSurls();
    response := request.BuildSpecificResponse(NOT_SUPPORTED, "No supported protocols provided.");
  }

  /** __process_file_request from the protocol check on. */
  method CheckAndSubmit(request: FileRequest, db: Connection, checker: ProtocolChecker) returns (response: Response)
    requires request.status == REQUEST_QUEUED && request.explanation == "" && request.builtResponse == None
    requires AllQueued(request.surls)
    requires db.Valid() && db.committed == db.working && WellFormed(db.working, db.ids)
    modifies request, db
    ensures db.Valid() && db.committed == db.working && WellFormed(db.working, db.ids)
    ensures
      var usable := Supported(old(request.protocols), checker.supported);
      if usable == [] && old(request.protocols) != []
      then unchanged(db) && Unsupported(old(request.surls), request.surls, old(request.token), response)
      else
        Answered(request.kind, old(request.surls), request.surls, usable, old(request.token), old(db.clock), db.fails,
                 old(db.ids), old(db.committed), db.committed, response)
    ensures Agrees(request.kind, old(request.surls), request.surls,
                   Supported(old(request.protocols), checker.supported), old(request.token), old(db.clock), db.fails,
                   old(db.ids), old(db.committed), db.committed, response)
  {
    hide WellFormed, Answered, Unsupported, Agrees, StatusesOf;
    ghost var kind, given, token := request.kind, request.surls, request.token;
    ghost var clock, ids, base := db.clock, db.ids, db.committed;
    var usable := DropUnsupportedProtocols(request, checker);
    if !usable {
      response := RefuseProtocols(request);
      UnsupportedAgrees(kind, given, request.surls, [], token, clock, db.fails, ids, base, response);
      return;
    }
    ghost var supported := request.protocols;
    response := SubmitChecked(request, db);
    AnswerMatchesDatabase(kind, given, request.surls, supported, token, clock, db.fails, ids, base, db.committed,
                          response);
  }

  /** __process_file_request. The connection (null if the thread has none), the ping and the
      generated UUID come from outside; no request leaves uncommitted changes behind. */
  method ProcessFileRequest(request: FileRequest, db: Connection?, alive: bool, uuid: string, checker: ProtocolChecker)
    returns (response: Response)
    requires request.Fresh()
    requires db != null ==> db.Valid() && db.committed == db.working && WellFormed(db.working, db.ids)
    modifies request, db
    ensures db == null ==>
      && request.surls == old(request.surls)
      && response == Response(FATAL_INTERNAL_ERROR, "Cannot get DB connect from the pool",
                              StatusesOf(request.surls), None)
    ensures db != null ==> db.Valid() && db.committed == db.working && WellFormed(db.working, db.ids)
    ensures db != null && !alive ==>
      && unchanged(db) && request.surls == old(request.surls)
      && response == Response(INTERNAL_ERROR, "Lost connection to the DB.",
                              StatusesOf(request.surls), Reported(Escape(uuid)))
    ensures db != null && alive ==>
      var usable := Supported(old(request.protocols), checker.supported);
      if usable == [] && old(request.protocols) != []
      then unchanged(db) && Unsupported(old(request.surls), request.surls, Escape(uuid), response)
      else
        Answered(request.kind, old(request.surls), request.surls, usable, Escape(uuid), old(db.clock), db.fails,
                 old(db.ids), old(db.committed), db.committed, response)
    ensures db != null ==>
      Agrees(request.kind, old(request.surls), request.surls, Supported(old(request.protocols), checker.supported),
             Escape(uuid), old(db.clock), db.fails, old(db.ids), old(db.committed), db.committed, response)
  {
    hide WellFormed, Answered, GenericallyFailed, Agrees, StatusesOf, Describe, Unsupported, Supported, Escape;
    if db == null {
      response := request.BuildSpecificResponse(FATAL_INTERNAL_ERROR, "Cannot get DB connect from the pool");
      return;
    }
    request.SetRequestToken(uuid);
    if !alive {
      response := request.BuildSpecificResponse(INTERNAL_ERROR, "Lost connection to the DB.");
      NothingStored(request.kind, request.surls, request.surls, Supported(request.protocols, checker.supported),
                    request.token, db.clock, db.fails, db.ids, db.committed, response);
      return;
    }
    response := CheckAndSubmit(request, db, checker);
  }
}
