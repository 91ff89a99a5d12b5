/** From the rows of the query to the answer of a status request (src/frontend/StatusTemplate.hpp). */
module StatusProcessing {
  import opened FileStatuses
  import opened Srm
  import opened StatusAnswers
  import opened Submission
  import opened Wrappers

  /** What leaves processRequestStatus: a response, or an exception that it does not catch. */
  datatype Answer = Sent(response: StatusResponse) | Thrown(error: StatusError)

  /** No row was read: every requested SURL is answered by SRM_INVALID_PATH. */
  predicate NothingKnown(surls: seq<string>, code: StatusCode, why: string, answer: Answer) {
    && answer.Sent? && answer.response.status == code && answer.response.explanation == why
    && |answer.response.files| == |surls|
    && forall i :: 0 <= i < |surls| ==>
         answer.response.files[i] == Some(FileStatus(surls[i], INVALID_PATH, "No information about this SURL"))
  }

  lemma {:induction false} AllMissing(surls: seq<string>)
    ensures Missing(surls, []) == surls
  {
    if surls != [] {
      AllMissing(surls[..|surls| - 1]);
    }
  }

  lemma OnlyMissing(surls: seq<string>)
    ensures Outcome(surls, []) == None && Fits(surls, [])
    ensures FilesFrom(surls, [], StartIndex([])) == NoInformationOn(surls)
  {
    AllMissing(surls);
    hide Missing;
    if surls == [] {
      assert FilesFrom(surls, [], 0) == [];
    }
  }

  lemma NothingLoaded(kind: Kind, surls: seq<string>, code: StatusCode, onDisk: string -> bool)
    ensures Outcome(surls, []) == None && Updated(kind, [], onDisk) == []
    ensures OverallStatus(kind, code, ArraySize(surls, []), []) == code
    ensures Fits(surls, []) && |FilesFrom(surls, [], StartIndex([]))| == |surls|
    ensures forall i :: 0 <= i < |surls| ==>
      FilesFrom(surls, [], StartIndex([]))[i]
      == Some(FileStatus(surls[i], INVALID_PATH, "No information about this SURL"))
  {
    OnlyMissing(surls);
    hide FilesFrom, Outcome, Fits, Missing;
  }

  // ----- the answer from the rows -----

  const OTHER_DN := "The request was made from another DN. You're not authorized to inspect it."

  /** The answer once the rows have been loaded, for a request status and an explanation. */
  ghost predicate Built(kind: Kind, surls: seq<string>, rows: seq<Row>, code: StatusCode, why: string,
                        onDisk: string -> bool, answer: Answer)
    requires Loadable(rows)
  {
    var turls := Updated(kind, TurlsOf(rows), onDisk);
    match Outcome(surls, TurlsOf(rows))
    case Some(error) => answer == Thrown(error)
    case None =>
      && |turls| <= ArraySize(surls, turls) && Fits(surls, turls)
      && answer == Sent(StatusResponse(OverallStatus(kind, code, ArraySize(surls, turls), turls), why,
                                           FilesFrom(surls, turls, StartIndex(turls))))
  }

  /** What the request status in the answer is, in terms of the rows. */
  predicate RightStatus(kind: Kind, surls: seq<string>, rows: seq<Row>, code: StatusCode, onDisk: string -> bool,
                        status: StatusCode)
    requires Loadable(rows)
  {
    status ==
      if kind.PtG? || kind.PtP? || !Settled(surls, rows, onDisk) then code
      else if AllOnline(rows) then SUCCESS
      else if NoneOnline(rows) then FAILURE
      else PARTIAL_SUCCESS
  }

  /** For rows that can be relied on there is a response, which answers every requested SURL with what
      its row says; and whatever the rows say, the request status of srmStatusOfGetRequest and
      srmStatusOfPutRequest is the one that was loaded, while srmStatusOfBringOnlineRequest
      replaces it if the request is settled. */
  lemma BuiltIsRight(kind: Kind, surls: seq<string>, rows: seq<Row>, code: StatusCode, why: string,
                     onDisk: string -> bool, answer: Answer)
    requires Asked(surls, rows) && Built(kind, surls, rows, code, why, onDisk, answer)
    ensures answer.Sent? ==>
      RightStatus(kind, surls, rows, code, onDisk, answer.response.status) && answer.response.explanation == why
    ensures Reliable(surls, rows) ==>
      answer.Sent? && Complete(answer.response.files, surls, UpdatedRows(kind, rows, onDisk))
  {
    hide TurlsOf, FilesFrom, Missing, Complete, Reliable, UpdatedRows, Updated, Settled, AllOnline, NoneOnline;
    UpdateCommutes(kind, rows, onDisk);
    SameOutcome(kind, surls, TurlsOf(rows), onDisk);
    if kind.BoL? {
      BringOnlineStatus(surls, rows, code, onDisk);
    }
    if Reliable(surls, rows) {
      SameSurlsAsked(surls, rows, UpdatedRows(kind, rows, onDisk));
      AnswerIsComplete(surls, UpdatedRows(kind, rows, onDisk));
    }
  }

  /** Without requested SURLs there is always a response, with exactly the rows that have a status. */
  lemma BuiltForAllFiles(kind: Kind, rows: seq<Row>, code: StatusCode, why: string, onDisk: string -> bool,
                         answer: Answer)
    requires Loadable(rows) && Built(kind, [], rows, code, why, onDisk, answer)
    ensures Loadable(UpdatedRows(kind, rows, onDisk))
    ensures answer.Sent? && answer.response.explanation == why
    ensures kind.PtG? || kind.PtP? ==> answer.response.status == code
    ensures forall row :: row in UpdatedRows(kind, rows, onDisk) && row.code.Some? ==>
      Some(FileStatus(Kept(row.surl), row.code.value, row.explanation)) in answer.response.files
    ensures forall file :: file in answer.response.files ==>
      file.Some? && TellsOf(UpdatedRows(kind, rows, onDisk), file.value)
  {
    hide TurlsOf, FilesFrom, Missing, Updated, Kept, TellsOf;
    UpdateCommutes(kind, rows, onDisk);
    SameOutcome(kind, [], TurlsOf(rows), onDisk);
    AllFilesAnswered(UpdatedRows(kind, rows, onDisk));
  }

  // ----- the method -----

  /** processRequestStatus for a request that load has just filled. The connection, the ping and what
      the query returns (None stands for mysql_exception) come from outside. */
  method ProcessRequestStatus(request: FileStatusRequest, connected: bool, token: string, alive: bool,
                              rows: Option<seq<Row>>, dn: string, onDisk: string -> bool)
    returns (answer: Answer)
    requires request.turls == [] && request.builtResponse == None
    modifies request
    ensures !connected ==>
      NothingKnown(old(request.surls), FATAL_INTERNAL_ERROR, "Cannot get DB connection from the pool", answer)
    ensures connected && token == "" ==>
      NothingKnown(old(request.surls), INVALID_REQUEST, "Empty request token", answer)
    ensures connected && token != "" && !alive ==>
      NothingKnown(old(request.surls), INTERNAL_ERROR, "Lost connection to the DB.", answer)
    ensures connected && token != "" && alive && rows.None? ==>
      NothingKnown(old(request.surls), FAILURE, "Generic error quering the status for the request", answer)
    ensures connected && token != "" && alive && rows == Some([]) ==>
      NothingKnown(old(request.surls), INVALID_REQUEST, "No request by that token", answer)
    ensures connected && token != "" && alive && rows.Some? && rows.value != [] ==>
      var first := rows.value[0];
      if first.clientDn == "" || first.requestStatus.None? then answer == Thrown(StatusError.LogicError)
      else if !Loadable(rows.value) then answer == Thrown(StatusError.InvalidSurl)
      else if first.clientDn != dn
      then Built(request.kind, old(request.surls), rows.value, AUTHORIZATION_FAILURE, OTHER_DN, onDisk, answer)
      else Built(request.kind, old(request.surls), rows.value, first.requestStatus.value, first.requestExplanation,
                 onDisk, answer)
    ensures (request.kind.PtG? || request.kind.PtP?) && connected && token != "" && alive && rows.Some?
            && rows.value != [] && rows.value[0].clientDn == dn && answer.Sent? ==>
      Some(answer.response.status) == rows.value[0].requestStatus
  {
    hide Loadable, TurlsOf, FilesFrom, OverallStatus, Updated, Fits, Outcome, StoppedAtInvalid;
    if !connected {
      answer := AnswerAtOnce(request, FATAL_INTERNAL_ERROR, "Cannot get DB connection from the pool", onDisk);
      return;
    }
    if token == "" {
      answer := AnswerAtOnce(request, INVALID_REQUEST, "Empty request token", onDisk);
      return;
    }
    if !alive {
      answer := AnswerAtOnce(request, INTERNAL_ERROR, "Lost connection to the DB.", onDisk);
      return;
    }
    if rows.None? {
      answer := AnswerAtOnce(request, FAILURE, "Generic error quering the status for the request", onDisk);
      return;
    }
    var error := request.LoadFromDB(rows.value);
    if error == Some(TokenNotFound) {
      answer := AnswerAtOnce(request, INVALID_REQUEST, "No request by that token", onDisk);
      return;
    }
    if error.Some? {
      return Thrown(error.value);
    }
    SameOutcome(request.kind, request.surls, request.turls, onDisk);
    var result;
    if request.storedClientDn != dn {
      result := request.BuildSpecificResponse(AUTHORIZATION_FAILURE, OTHER_DN, onDisk);
    } else {
      result := request.BuildResponse(onDisk);
    }
    match result
    case Success(response) => answer := Sent(response);
    case Failure(failure) => answer := Thrown(failure);
  }

  /** An answer without any row. */
  method AnswerAtOnce(request: FileStatusRequest, code: StatusCode, why: string, onDisk: string -> bool)
    returns (answer: Answer)
    requires request.turls == [] && request.builtResponse == None
    modifies request
    ensures NothingKnown(old(request.surls), code, why, answer)
  {
    NothingLoaded(request.kind, request.surls, code, onDisk);
    hide FilesFrom, OverallStatus, Updated, Fits, Outcome, Missing;
    var result := request.BuildSpecificResponse(code, why, onDisk);
    answer := Sent(result.value);
  }
}
