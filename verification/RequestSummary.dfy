/** srmGetRequestSummary (src/frontend/srmv2_GetRequestSummary.cpp): one summary per requested token. */
module RequestSummary {
  import opened Database
  import opened Sequences
  import opened SqlString
  import opened Srm
  import opened StoredRequests
  import opened Submission
  import opened Wrappers

  datatype RequestType = PrepareToGet | PrepareToPut | Copy | BringOnline

  function RequestTypeOf(code: string): RequestType {
    if code == "PTG" then PrepareToGet
    else if code == "PTP" then PrepareToPut
    else if code == "COP" then Copy
    else if code == "BOL" then BringOnline
    else PrepareToPut
  }

  /** A row of the first query. */
  datatype Row = Row(
    id: nat, token: string, requestType: string, status: StatusCode, explanation: string, nbreqfiles: nat)

  datatype Counts = Counts(completed: nat, waiting: nat, failed: nat)

  datatype Summary = Summary(
    token: string,
    status: StatusCode,
    explanation: string,
    totalFiles: Option<nat>,
    requestType: Option<RequestType>,
    counts: Option<Counts>)

  datatype ReturnStatus = ReturnStatus(code: StatusCode, explanation: string)

  // ----- counting file statuses -----

  predicate Completed(code: StatusCode) {
    code.SUCCESS? || code.RELEASED? || code.FILE_PINNED? || code.FILE_IN_CACHE? || code.SPACE_AVAILABLE? || code.DONE?
  }

  predicate Waiting(code: StatusCode) { code.REQUEST_QUEUED? || code.REQUEST_INPROGRESS? }

  function IsCompleted(code: StatusCode): int { if Completed(code) then 1 else 0 }

  function IsWaiting(code: StatusCode): int { if Waiting(code) then 1 else 0 }

  /** The counts partition the codes: those of each class, and together all of them. */
  predicate Counted(codes: seq<StatusCode>, counts: Counts) {
    && counts.completed == Total(codes, IsCompleted)
    && counts.waiting == Total(codes, IsWaiting)
    && counts.completed + counts.waiting + counts.failed == |codes|
  }

  lemma CountsAppend(codes: seq<StatusCode>, code: StatusCode)
    ensures Total(codes + [code], IsCompleted) == Total(codes, IsCompleted) + IsCompleted(code)
    ensures Total(codes + [code], IsWaiting) == Total(codes, IsWaiting) + IsWaiting(code)
  {
    TotalConcat(codes, [code], IsCompleted);
    TotalConcat(codes, [code], IsWaiting);
  }

  /** Which statuses count as completed and which as waiting. */
  lemma {:induction false} CountsByCode(codes: seq<StatusCode>)
    ensures var m := multiset(codes);
      && Total(codes, IsCompleted)
         == m[SUCCESS] + m[RELEASED] + m[FILE_PINNED] + m[FILE_IN_CACHE] + m[SPACE_AVAILABLE] + m[DONE]
      && Total(codes, IsWaiting) == m[REQUEST_QUEUED] + m[REQUEST_INPROGRESS]
  {
    if codes != [] {
      var m, rest := multiset(codes), multiset(codes[1..]);
      CountsByCode(codes[1..]);
      forall code ensures m[code] == rest[code] + (if codes[0] == code then 1 else 0) {
        HeadCounts(codes, code);
      }
      hide Total;
      TotalHead(codes, IsCompleted);
      TotalHead(codes, IsWaiting);
    }
  }

  lemma HeadCounts(codes: seq<StatusCode>, code: StatusCode)
    requires codes != []
    ensures multiset(codes)[code] == multiset(codes[1..])[code] + (if codes[0] == code then 1 else 0)
  {
    assert codes == [codes[0]] + codes[1..];
  }

  lemma TotalHead(codes: seq<StatusCode>, weight: StatusCode -> int)
    requires codes != []
    ensures Total(codes, weight) == weight(codes[0]) + Total(codes[1..], weight)
  {
  }

  method CountFiles(codes: seq<StatusCode>) returns (counts: Counts)
    ensures Counted(codes, counts)
    ensures var m := multiset(codes);
      && counts.completed
         == m[SUCCESS] + m[RELEASED] + m[FILE_PINNED] + m[FILE_IN_CACHE] + m[SPACE_AVAILABLE] + m[DONE]
      && counts.waiting == m[REQUEST_QUEUED] + m[REQUEST_INPROGRESS]
      && counts.completed + counts.waiting + counts.failed == |codes|
  {
    var completed, waiting, failed := 0, 0, 0;
    for k := 0 to |codes|
      invariant completed >= 0 && waiting >= 0 && failed >= 0
      invariant Counted(codes[..k], Counts(completed, waiting, failed))
    {
      CountsAppend(codes[..k], codes[k]);
      assert codes[..k + 1] == codes[..k] + [codes[k]];
      match codes[k] {
        case SUCCESS | RELEASED | FILE_PINNED | FILE_IN_CACHE | SPACE_AVAILABLE | DONE => completed := completed + 1;
        case REQUEST_QUEUED | REQUEST_INPROGRESS => waiting := waiting + 1;
        case _ => failed := failed + 1;
      }
    }
    assert codes[..|codes|] == codes;
    CountsByCode(codes);
    counts := Counts(completed, waiting, failed);
  }

  // ----- one summary -----

  predicate Known(token: string, rows: seq<Row>) { exists j :: 0 <= j < |rows| && rows[j].token == token }

  predicate FirstOf(token: string, rows: seq<Row>, j: nat)
    requires j < |rows|
  {
    rows[j].token == token && forall k :: 0 <= k < j ==> rows[k].token != token
  }

  /** The summary of a token that no row has. */
  function Unknown(token: string): Summary {
    Summary(token, INVALID_REQUEST, "Invalid request token", None, None, None)
  }

  /** The summary of a request: its own status and the file counts, unless the number of file
      statuses is not the number of files it was submitted with. */
  predicate Summarises(summary: Summary, row: Row, files: (RequestType, nat) -> seq<StatusCode>) {
    var requestType := RequestTypeOf(row.requestType);
    var codes := files(requestType, row.id);
    && summary.token == row.token
    && summary.totalFiles == Some(row.nbreqfiles)
    && summary.requestType == Some(requestType)
    && if |codes| == row.nbreqfiles
       then
         && summary.status == row.status && summary.explanation == row.explanation
         && summary.counts.Some? && Counted(codes, summary.counts.value)
       else
         && summary.status == INTERNAL_ERROR && summary.explanation == "BUG! In DB wrong nbreqfiles"
         && summary.counts == None
  }

  /** What becomes of one requested token. */
  predicate SlotFor(token: Option<string>, slot: Option<Summary>, rows: seq<Row>,
                    files: (RequestType, nat) -> seq<StatusCode>)
  {
    if token.None? then slot == None
    else
      && slot.Some?
      && if Known(token.value, rows)
         then exists j :: 0 <= j < |rows| && FirstOf(token.value, rows, j) && Summarises(slot.value, rows[j], files)
         else slot.value == Summary(token.value, INVALID_REQUEST, "Invalid request token", None, None, None)
  }

  /** The search through the rows: the first one of this token, |rows| if there is none. */
  method FindRow(token: string, rows: seq<Row>) returns (j: nat)
    ensures j <= |rows|
    ensures j < |rows| ==> FirstOf(token, rows, j)
    ensures j == |rows| <==> !Known(token, rows)
  {
    j := 0;
    while j < |rows| && rows[j].token != token
      invariant j <= |rows|
      invariant forall k :: 0 <= k < j ==> rows[k].token != token
    {
      j := j + 1;
    }
  }

  method SummariseRow(row: Row, files: (RequestType, nat) -> seq<StatusCode>) returns (summary: Summary)
    ensures Summarises(summary, row, files)
    ensures row.requestType == "PTG" ==> summary.requestType == Some(PrepareToGet)
    ensures row.requestType == "PTP" ==> summary.requestType == Some(PrepareToPut)
    ensures row.requestType == "COP" ==> summary.requestType == Some(Copy)
    ensures row.requestType == "BOL" ==> summary.requestType == Some(BringOnline)
    ensures row.requestType !in ["PTG", "PTP", "COP", "BOL"] ==> summary.requestType == Some(PrepareToPut)
    ensures summary.counts.Some? ==>
      Counted(files(summary.requestType.value, row.id), summary.counts.value)
  {
    var requestType := RequestTypeOf(row.requestType);
    var codes := files(requestType, row.id);
    summary := Summary(row.token, row.status, row.explanation, Some(row.nbreqfiles), Some(requestType), None);
    if |codes| != row.nbreqfiles {
      summary := summary.(status := INTERNAL_ERROR, explanation := "BUG! In DB wrong nbreqfiles");
    } else {
      var counts := CountFiles(codes);
      summary := summary.(counts := Some(counts));
    }
  }

  // ----- the whole answer -----

  function IsGiven(token: Option<string>): int { if token.Some? then 1 else 0 }

  function GivenTokens(tokens: seq<Option<string>>): int { Total(tokens, IsGiven) }

  /** The request status, by which of the given tokens a row of the first query has. */
  function OverallStatus(tokens: seq<Option<string>>, rows: seq<Row>): ReturnStatus {
    if forall i :: 0 <= i < |tokens| && tokens[i].Some? ==> Known(tokens[i].value, rows)
    then ReturnStatus(SUCCESS, "All tokens retrieved")
    else if forall i :: 0 <= i < |tokens| && tokens[i].Some? ==> !Known(tokens[i].value, rows)
    then ReturnStatus(INTERNAL_ERROR, "Failure due to a bug")
    else ReturnStatus(PARTIAL_SUCCESS, "Some request summaries are failed")
  }

  lemma FoundSlot(token: string, summary: Summary, rows: seq<Row>, j: nat,
                  files: (RequestType, nat) -> seq<StatusCode>)
    requires j < |rows| && FirstOf(token, rows, j) && Summarises(summary, rows[j], files)
    ensures Known(token, rows) && SlotFor(Some(token), Some(summary), rows, files)
  {
    hide Summarises;
  }

  lemma MissedSlot(token: string, rows: seq<Row>, files: (RequestType, nat) -> seq<StatusCode>)
    requires !Known(token, rows)
    ensures SlotFor(Some(token), Some(Unknown(token)), rows, files)
  {
    hide Known;
  }

  lemma NullSlot(rows: seq<Row>, files: (RequestType, nat) -> seq<StatusCode>)
    ensures SlotFor(None, None, rows, files)
  {
  }

  /** One turn of the loop over the requested tokens. */
  method SummariseToken(token: string, rows: seq<Row>, files: (RequestType, nat) -> seq<StatusCode>)
    returns (found: bool, summary: Summary)
    ensures found <==> Known(token, rows)
    ensures SlotFor(Some(token), Some(summary), rows, files)
  {
    var j := FindRow(token, rows);
    hide Known, SlotFor, Summarises, FirstOf, Unknown;
    found := j < |rows|;
    if found {
      summary := SummariseRow(rows[j], files);
      FoundSlot(token, summary, rows, j, files);
    } else {
      summary := Unknown(token);
      MissedSlot(token, rows, files);
    }
  }

  /** The loop over the requested tokens. The array has one slot per token, null ones included, but
      each null token takes one off the size that the client is given. */
  method Summarise(tokens: seq<Option<string>>, rows: seq<Row>, files: (RequestType, nat) -> seq<StatusCode>)
    returns (slots: array<Option<Summary>>, size: int, status: ReturnStatus)
    requires tokens != [] && rows != []
    ensures fresh(slots) && slots.Length == |tokens|
    ensures forall i :: 0 <= i < |tokens| ==> SlotFor(tokens[i], slots[i], rows, files)
    ensures size == GivenTokens(tokens)
    ensures status == OverallStatus(tokens, rows)
  {
    hide Known, Summarises, FirstOf, SlotFor, Unknown;
    NullSlot(rows, files);
    slots := new Option<Summary>[|tokens|](_ => None);
    size := |tokens|;
    var requestSuccess, requestFailure := true, true;
    for i := 0 to |tokens|
      invariant size == |tokens| - i + GivenTokens(tokens[..i])
      invariant forall k :: 0 <= k < i ==> SlotFor(tokens[k], slots[k], rows, files)
      invariant forall k :: i <= k < |tokens| ==> slots[k] == None
      invariant requestSuccess <==> forall k :: 0 <= k < i && tokens[k].Some? ==> Known(tokens[k].value, rows)
      invariant requestFailure <==> forall k :: 0 <= k < i && tokens[k].Some? ==> !Known(tokens[k].value, rows)
    {
      assert tokens[..i + 1] == tokens[..i] + [tokens[i]];
      TotalConcat(tokens[..i], [tokens[i]], IsGiven);
      if tokens[i].None? {
        size := size - 1;
      } else {
        var found, summary := SummariseToken(tokens[i].value, rows, files);
        slots[i] := Some(summary);
        if found {
          requestFailure := false;
        } else {
          requestSuccess := false;
        }
      }
    }
    assert tokens[..|tokens|] == tokens;
    if requestSuccess {
      status := ReturnStatus(SUCCESS, "All tokens retrieved");
    } else if requestFailure {
      status := ReturnStatus(INTERNAL_ERROR, "Failure due to a bug");
    } else {
      status := ReturnStatus(PARTIAL_SUCCESS, "Some request summaries are failed");
    }
  }

  /** Sent back without looking into the database: no tokens at all, or one that is no UUID. */
  function Refused(tokens: Option<seq<Option<string>>>): Option<ReturnStatus> {
    if tokens.None? || tokens.value == [] then Some(ReturnStatus(INVALID_REQUEST, "invalid array of request tokens"))
    else if exists token :: token in tokens.value && token.Some? && !ValidToken(token.value)
    then Some(ReturnStatus(INVALID_REQUEST, "invalid token"))
    else None
  }

  /** MysqlException leaves the function: nothing catches it. */
  datatype Answer =
    | Answer(status: ReturnStatus, slots: seq<Option<Summary>>, size: int)
    | MysqlException

  /** srmGetRequestSummary after the authorization. If every token is null, the condition of the
      first query lacks its alternatives, so that it is no SQL statement. */
  method GetRequestSummary(tokens: Option<seq<Option<string>>>, query: seq<Option<string>> -> seq<Row>,
                           files: (RequestType, nat) -> seq<StatusCode>)
    returns (answer: Answer)
    ensures Refused(tokens).Some? ==> answer == Answer(Refused(tokens).value, [], 0)
    ensures tokens.None? || tokens.value == [] ==>
      answer == Answer(ReturnStatus(INVALID_REQUEST, "invalid array of request tokens"), [], 0)
    ensures tokens.Some? && (exists token :: token in tokens.value && token.Some? && !ValidToken(token.value)) ==>
      answer == Answer(ReturnStatus(INVALID_REQUEST, "invalid token"), [], 0)
    ensures Refused(tokens).None? ==>
      var given, rows := tokens.value, query(tokens.value);
      if GivenTokens(given) == 0 then answer == Answer.MysqlException
      else if rows == []
      then answer == Answer(ReturnStatus(FAILURE, "None of the requested tokens were found"), [], 0)
      else
        && answer.Answer? && |answer.slots| == |given|
        && (forall i :: 0 <= i < |given| ==> SlotFor(given[i], answer.slots[i], rows, files))
        && answer.size == GivenTokens(given) && answer.status == OverallStatus(given, rows)
  {
    if tokens.None? || tokens.value == [] {
      return Answer(ReturnStatus(INVALID_REQUEST, "invalid array of request tokens"), [], 0);
    }
    var given := tokens.value;
    var count := 0;
    for i := 0 to |given|
      invariant forall k :: 0 <= k < i && given[k].Some? ==> ValidToken(given[k].value)
      invariant count == GivenTokens(given[..i])
    {
      if given[i].Some? && !ValidToken(given[i].value) {
        return Answer(ReturnStatus(INVALID_REQUEST, "invalid token"), [], 0);
      }
      assert given[..i + 1] == given[..i] + [given[i]];
      TotalConcat(given[..i], [given[i]], IsGiven);
      count := count + if given[i].Some? then 1 else 0;
    }
    assert given[..|given|] == given;
    if count == 0 {
      return Answer.MysqlException;
    }
    var rows := query(given);
    if rows == [] {
      return Answer(ReturnStatus(FAILURE, "None of the requested tokens were found"), [], 0);
    }
    var slots, size, status := Summarise(given, rows, files);
    answer := Answer(status, slots[..], size);
  }

  predicate Found(token: string, rows: seq<Row>) { exists r :: r in rows && r.token == token }

  predicate SomeFound(tokens: seq<Option<string>>, rows: seq<Row>) {
    exists t :: t in tokens && t.Some? && Found(t.value, rows)
  }

  predicate SomeMissed(tokens: seq<Option<string>>, rows: seq<Row>) {
    exists t :: t in tokens && t.Some? && !Found(t.value, rows)
  }

  /** The request status says which of the given tokens were found: all, some, or none. */
  lemma StatusTellsFound(tokens: seq<Option<string>>, rows: seq<Row>)
    ensures OverallStatus(tokens, rows) ==
      if !SomeMissed(tokens, rows) then ReturnStatus(SUCCESS, "All tokens retrieved")
      else if SomeFound(tokens, rows) then ReturnStatus(PARTIAL_SUCCESS, "Some request summaries are failed")
      else ReturnStatus(INTERNAL_ERROR, "Failure due to a bug")
  {
    forall token ensures Found(token, rows) <==> Known(token, rows) {
      FoundIsKnown(token, rows);
    }
    hide Found, Known;
    assert forall i :: 0 <= i < |tokens| ==> tokens[i] in tokens;
  }

  lemma FoundIsKnown(token: string, rows: seq<Row>)
    ensures Found(token, rows) <==> Known(token, rows)
  {
    if j :| 0 <= j < |rows| && rows[j].token == token {
      assert rows[j] in rows;
    }
  }

  // ----- the branch that "cannot happen" -----

  /** The "bug" answer is given exactly if a token was given and no given token equals the token of
      any row. So it cannot happen as long as the first query selects by exact equality. */
  lemma BugAnswer(tokens: seq<Option<string>>, rows: seq<Row>)
    ensures OverallStatus(tokens, rows).code == INTERNAL_ERROR
       <==> GivenTokens(tokens) > 0 && forall r :: r in rows ==> Some(r.token) !in tokens
  {
    GivenSome(tokens);
    if i :| 0 <= i < |tokens| && tokens[i].Some? && Known(tokens[i].value, rows) {
      var j :| 0 <= j < |rows| && rows[j].token == tokens[i].value;
      assert rows[j] in rows && Some(rows[j].token) in tokens;
    }
    if r :| r in rows && Some(r.token) in tokens {
      var i :| 0 <= i < |tokens| && tokens[i] == Some(r.token);
      var j :| 0 <= j < |rows| && rows[j] == r;
      assert Known(tokens[i].value, rows);
    }
  }

  lemma GivenSome(tokens: seq<Option<string>>)
    ensures GivenTokens(tokens) > 0 <==> exists i :: 0 <= i < |tokens| && tokens[i].Some?
  {
    TotalNonNegative(tokens, IsGiven);
    if i :| 0 <= i < |tokens| && tokens[i].Some? {
      assert tokens[i] in tokens;
    } else {
      TotalZero(tokens, IsGiven);
    }
  }

  lemma ExactSelectionHasNoBug(tokens: seq<Option<string>>, rows: seq<Row>)
    requires rows != [] && forall r :: r in rows ==> Some(r.token) in tokens
    ensures OverallStatus(tokens, rows).code != INTERNAL_ERROR
  {
    assert rows[0] in rows;
    BugAnswer(tokens, rows);
  }

  // ----- null tokens -----

  /** A null slot, as the client sees it. */
  function IsHole(slot: Option<Summary>): int { if slot.None? then 1 else 0 }

  function IsSummary(slot: Option<Summary>): int { if slot.Some? then 1 else 0 }

  lemma {:induction false} SlotsFollowTokens(tokens: seq<Option<string>>, slots: seq<Option<Summary>>)
    requires |slots| == |tokens| && forall i :: 0 <= i < |tokens| ==> (slots[i].Some? <==> tokens[i].Some?)
    ensures Total(slots, IsSummary) == GivenTokens(tokens)
    ensures Total(slots, IsHole) == |tokens| - GivenTokens(tokens)
  {
    if tokens != [] {
      SlotsFollowTokens(tokens[1..], slots[1..]);
    }
  }

  /** Every null token comes after every given one. */
  predicate NullsLast(tokens: seq<Option<string>>) {
    forall i, j :: 0 <= i < j < |tokens| && tokens[i].None? ==> tokens[j].None?
  }

  lemma {:induction false} GivenFirst(tokens: seq<Option<string>>)
    requires NullsLast(tokens)
    ensures forall i :: 0 <= i < |tokens| ==> (tokens[i].Some? <==> i < GivenTokens(tokens))
  {
    if tokens != [] {
      GivenFirst(tokens[1..]);
      if tokens[0].None? {
        TotalZero(tokens, IsGiven);
      } else {
        TotalNonNegative(tokens[1..], IsGiven);
      }
    }
  }

  lemma SplitTotals(tokens: seq<Option<string>>, slots: seq<Option<Summary>>)
    requires |slots| == |tokens| && forall i :: 0 <= i < |tokens| ==> (slots[i].Some? <==> tokens[i].Some?)
    ensures var size := GivenTokens(tokens);
      && 0 <= size <= |slots|
      && Total(slots[size..], IsSummary) == Total(slots[..size], IsHole)
      && (Total(slots[..size], IsHole) == 0 <==> forall i :: 0 <= i < size ==> slots[i].Some?)
      && (Total(slots[size..], IsSummary) == 0 <==> forall i :: size <= i < |slots| ==> slots[i].None?)
  {
    var size := GivenTokens(tokens);
    TotalNonNegative(tokens, IsGiven);
    TotalAtMostLength(tokens, IsGiven);
    SlotsFollowTokens(tokens, slots);
    assert slots == slots[..size] + slots[size..];
    TotalConcat(slots[..size], slots[size..], IsSummary);
    SlotsFollowTokens(tokens[..size], slots[..size]);
    NoHole(slots[..size]);
    NoSummary(slots[size..]);
    assert forall j :: size <= j < |slots| ==> slots[size..][j - size] == slots[j];
  }

  /** The client loses as many summaries at the end as it gets holes before: the slots are not moved
      together. So it sees all summaries, and no hole, exactly if every null token comes after
      every given one. */
  lemma SummariesLost(tokens: seq<Option<string>>, slots: seq<Option<Summary>>)
    requires |slots| == |tokens| && forall i :: 0 <= i < |tokens| ==> (slots[i].Some? <==> tokens[i].Some?)
    ensures var size := GivenTokens(tokens);
      && 0 <= size <= |slots|
      && Total(slots[size..], IsSummary) == Total(slots[..size], IsHole)
      && (Total(slots[..size], IsHole) == 0 <==> NullsLast(tokens))
  {
    SplitTotals(tokens, slots);
    hide Total;
    if NullsLast(tokens) {
      GivenFirst(tokens);
    }
  }

  /** A null token before a given one: the client gets one null summary. */
  lemma SummaryOutOfSight(summary: Summary)
    ensures var tokens, slots := [None, Some(summary.token)], [None, Some(summary)];
      GivenTokens(tokens) == 1 && slots[..GivenTokens(tokens)] == [None]
  {
    var tokens: seq<Option<string>> := [None, Some(summary.token)];
    assert tokens[1..][1..] == [];
    assert Total(tokens[1..], IsGiven) == IsGiven(tokens[1..][0]) + Total(tokens[1..][1..], IsGiven);
  }

  lemma NoHole(slots: seq<Option<Summary>>)
    ensures Total(slots, IsHole) == 0 <==> forall i :: 0 <= i < |slots| ==> slots[i].Some?
  {
    TotalNonNegative(slots, IsHole);
    if i :| 0 <= i < |slots| && slots[i].None? {
      assert slots[i] in slots;
    } else {
      TotalZero(slots, IsHole);
    }
  }

  lemma NoSummary(slots: seq<Option<Summary>>)
    ensures Total(slots, IsSummary) == 0 <==> forall i :: 0 <= i < |slots| ==> slots[i].None?
  {
    TotalNonNegative(slots, IsSummary);
    if i :| 0 <= i < |slots| && slots[i].Some? {
      assert slots[i] in slots;
    } else {
      TotalZero(slots, IsSummary);
    }
  }

  // ----- a request as it was submitted -----

  lemma {:induction false} AllWaiting(n: nat)
    ensures Total(Repeat(REQUEST_QUEUED, n), IsWaiting) == n && Total(Repeat(REQUEST_QUEUED, n), IsCompleted) == 0
    ensures |Repeat(REQUEST_QUEUED, n)| == n
  {
    if n > 0 {
      AllWaiting(n - 1);
      TotalConcat(Repeat(REQUEST_QUEUED, n - 1), [REQUEST_QUEUED], IsWaiting);
      TotalConcat(Repeat(REQUEST_QUEUED, n - 1), [REQUEST_QUEUED], IsCompleted);
    }
  }

  lemma {:induction false} NoneFailed(surls: seq<Surl>)
    ensures (forall i :: 0 <= i < |surls| ==> surls[i].status != FAILURE) <==> CountFailed(surls) == 0
  {
    if surls != [] {
      NoneFailed(surls[..|surls| - 1]);
    }
  }

  /** The request has these file statuses in the tables of its own kind and none in the others. */
  predicate OnlyFilesOf(kind: Kind, files: (RequestType, nat) -> seq<StatusCode>, id: nat, codes: seq<StatusCode>) {
    && files(PrepareToGet, id) == (if kind.PtG? then codes else [])
    && files(PrepareToPut, id) == (if kind.PtP? then codes else [])
    && files(BringOnline, id) == (if kind.BoL? then codes else [])
    && files(Copy, id) == []
  }

  /** A stored request of this kind with so many queued files. */
  lemma SummaryOfQueued(kind: Kind, queued: nat, row: Row, files: (RequestType, nat) -> seq<StatusCode>,
                        summary: Summary)
    requires row.requestType == TypeCode(kind) && Summarises(summary, row, files)
    requires OnlyFilesOf(kind, files, row.id, Repeat(REQUEST_QUEUED, queued))
    ensures kind.PtG? ==> summary.requestType == Some(PrepareToGet)
    ensures kind.PtP? ==> summary.requestType == Some(PrepareToPut)
    ensures kind.BoL? ==> summary.requestType == Some(BringOnline)
    ensures summary.totalFiles == Some(row.nbreqfiles)
    ensures queued == row.nbreqfiles ==>
      summary.status == row.status && summary.counts == Some(Counts(0, queued, 0))
    ensures queued != row.nbreqfiles ==>
      && summary.status == INTERNAL_ERROR && summary.explanation == "BUG! In DB wrong nbreqfiles"
      && summary.counts == None
  {
    AllWaiting(queued);
    hide Total, Repeat;
  }

  /** The summary of a request that was just submitted, under the type of its kind: all files waiting if
      every SURL was stored; but if any failed, although the request was accepted, only
      SRM_INTERNAL_ERROR. */
  lemma SummaryAfterSubmission(kind: Kind, surls: seq<Surl>, stored: QueueRow, base: Tables, committed: Tables,
                               protocols: seq<ProtocolRow>, row: Row, files: (RequestType, nat) -> seq<StatusCode>,
                               summary: Summary)
    requires Stored(base, committed, [stored], kind, surls, stored.id, protocols) && NoOrphans(base)
    requires stored.id !in QueueIds(base.queue) && DistinctIds(committed.files) && stored.nbreqfiles == |surls|
    requires stored.requestType == TypeCode(kind)
    requires row.id == stored.id && row.requestType == stored.requestType && row.nbreqfiles == stored.nbreqfiles
    requires OnlyFilesOf(kind, files, row.id, RequestStatuses(committed, row.id))
    requires Summarises(summary, row, files)
    ensures kind.PtG? ==> summary.requestType == Some(PrepareToGet)
    ensures kind.PtP? ==> summary.requestType == Some(PrepareToPut)
    ensures kind.BoL? ==> summary.requestType == Some(BringOnline)
    ensures summary.totalFiles == Some(|surls|)
    ensures (forall i :: 0 <= i < |surls| ==> surls[i].status != FAILURE) <==> CountFailed(surls) == 0
    ensures CountFailed(surls) == 0 ==> summary.status == row.status && summary.counts == Some(Counts(0, |surls|, 0))
    ensures CountFailed(surls) > 0 ==>
      && summary.status == INTERNAL_ERROR && summary.explanation == "BUG! In DB wrong nbreqfiles"
      && summary.counts == None
  {
    NoneFailed(surls);
    hide Stored, NoOrphans, DistinctIds, RequestStatuses, QueuedUrls, CountFailed, QueueIds;
    hide Summarises, OnlyFilesOf, TypeCode, RequestTypeOf, Repeat, RequestFiles, QueuedStates;
    JoinAfterSubmission(kind, surls, stored, base, committed, protocols, row.id);
    SummaryOfQueued(kind, |QueuedUrls(surls)|, row, files, summary);
  }
}
