/** The status requests (src/frontend/FileStatusRequest.hpp, GetStatusRequest.cpp,
    PutStatusRequest.cpp, BolStatusRequest.cpp): what the database knows about the requested SURLs
    is put into an array with one slot per SURL. Transfer URLs, sizes and times are left out.

    A SURL is kept normalised and escaped (Surl.hpp): the requested ones, and those that the rows
    bring from the database once more. */
module FileStatuses {
  import opened Sequences
  import opened SqlString
  import opened Srm
  import opened Submission
  import opened SurlNormalizer
  import opened Wrappers

  /** A row of the status query; an empty column is None. */
  datatype Row = Row(
    clientDn: string, requestStatus: Option<StatusCode>, requestExplanation: string,
    surl: string, code: Option<StatusCode>, explanation: string)

  datatype Turl = Turl(surl: string, status: StatusCode, explanation: string)

  datatype StatusResponse = StatusResponse(
    status: StatusCode, explanation: string, files: seq<Option<FileStatus>>)

  /** Overrun stands for a write beyond the end of the array, after which anything may happen. */
  datatype StatusError = TokenNotFound | LogicError | InvalidSurl | Overrun

  /** What storm::Surl makes of a valid SURL. */
  function Kept(surl: string): string
    requires Valid(surl)
  {
    Escape(Normalize(surl).value)
  }

  function TurlOf(row: Row): Turl
    requires row.code.Some? && Valid(row.surl)
  {
    Turl(Kept(row.surl), row.code.value, row.explanation)
  }

  /** Every stored SURL is accepted by storm::Surl. */
  predicate Loadable(rows: seq<Row>) { forall i :: 0 <= i < |rows| ==> Valid(rows[i].surl) }

  /** The rows that say anything about their SURL, in order. */
  function TurlsOf(rows: seq<Row>): seq<Turl>
    requires Loadable(rows)
  {
    if rows == [] then []
    else
      var row, before := rows[|rows| - 1], TurlsOf(rows[..|rows| - 1]);
      if row.code.None? then before else before + [TurlOf(row)]
  }

  /** Loaded are the rows before the first one that storm::Surl rejects. */
  predicate StoppedAtInvalid(rows: seq<Row>, turls: seq<Turl>) {
    exists i :: 0 <= i < |rows| && !Valid(rows[i].surl) && Loadable(rows[..i]) && turls == TurlsOf(rows[..i])
  }

  function Report(turl: Turl): FileStatus { FileStatus(turl.surl, turl.status, turl.explanation) }

  function NoInformation(surl: string): FileStatus {
    FileStatus(surl, INVALID_PATH, "No information about this SURL")
  }

  predicate Named(turls: seq<Turl>, surl: string) { exists i :: 0 <= i < |turls| && turls[i].surl == surl }

  /** The requested SURLs without a row, in order. */
  function Missing(surls: seq<string>, turls: seq<Turl>): (missing: seq<string>)
    ensures |missing| <= |surls|
  {
    if surls == [] then []
    else
      var m := |surls| - 1;
      Missing(surls[..m], turls) + (if Named(turls, surls[m]) then [] else [surls[m]])
  }

  function Reports(turls: seq<Turl>): (files: seq<Option<FileStatus>>)
    ensures |files| == |turls|
    ensures forall i :: 0 <= i < |turls| ==>
      && files[i].Some? && files[i].value.surl == turls[i].surl
      && files[i].value.status == turls[i].status && files[i].value.explanation == turls[i].explanation
  {
    seq(|turls|, i requires 0 <= i < |turls| => Some(Report(turls[i])))
  }

  function NoInformationOn(surls: seq<string>): (files: seq<Option<FileStatus>>)
    ensures |files| == |surls|
  {
    seq(|surls|, i requires 0 <= i < |surls| => Some(NoInformation(surls[i])))
  }

  function Nulls(n: nat): (files: seq<Option<FileStatus>>)
    ensures |files| == n
  {
    seq(n, _ => None)
  }

  /** files with the slots from start on overwritten. */
  function Overwritten(files: seq<Option<FileStatus>>, start: nat, replacement: seq<Option<FileStatus>>)
    : (result: seq<Option<FileStatus>>)
    requires start + |replacement| <= |files|
    ensures |result| == |files|
  {
    files[..start] + replacement + files[start + |replacement|..]
  }

  /** The slot where addMissingSurls starts: the last slot that is filled already, if there is one. */
  function StartIndex(turls: seq<Turl>): nat { if turls == [] then 0 else |turls| - 1 }

  function ArraySize(surls: seq<string>, turls: seq<Turl>): nat { if surls == [] then |turls| else |surls| }

  /** addMissingSurls stays inside the array. */
  predicate Fits(surls: seq<string>, turls: seq<Turl>) {
    |turls| < |surls| ==> StartIndex(turls) + |Missing(surls, turls)| <= |surls|
  }

  /** How building the array ends: by a write beyond its end if there are more rows than slots, by
      logic_error if the missing SURLs do not fit, otherwise well. */
  function Outcome(surls: seq<string>, turls: seq<Turl>): Option<StatusError> {
    if |turls| > ArraySize(surls, turls) then Some(Overrun)
    else if !Fits(surls, turls) then Some(StatusError.LogicError)
    else None
  }

  /** The array with the missing SURLs written from a start slot on. */
  function FilesFrom(surls: seq<string>, turls: seq<Turl>, start: nat): seq<Option<FileStatus>>
    requires |turls| <= ArraySize(surls, turls)
    requires |turls| < |surls| ==> start + |Missing(surls, turls)| <= |surls|
  {
    var found := Reports(turls) + Nulls(ArraySize(surls, turls) - |turls|);
    if |turls| < |surls| then Overwritten(found, start, NoInformationOn(Missing(surls, turls))) else found
  }

  // ----- srmStatusOfBringOnline -----

  predicate Successful(code: StatusCode) { code.SUCCESS? || code.FILE_IN_CACHE? || code.RELEASED? }

  predicate Terminal(code: StatusCode) { !code.REQUEST_QUEUED? && !code.REQUEST_INPROGRESS? }

  function IsSuccessful(turl: Turl): int { if Successful(turl.status) then 1 else 0 }

  function IsFailed(turl: Turl): int { if Terminal(turl.status) && !Successful(turl.status) then 1 else 0 }

  /** A file in progress that turns out to be on disk is reported as recalled. */
  function Recalled(turl: Turl, onDisk: string -> bool): Turl {
    if turl.status.REQUEST_INPROGRESS? && onDisk(turl.surl)
    then turl.(status := SUCCESS, explanation := "File recalled from tape") else turl
  }

  /** What is reported: only srmStatusOfBringOnline uses the answer about the disk. */
  function Updated(kind: Kind, turls: seq<Turl>, onDisk: string -> bool): (updated: seq<Turl>)
    ensures |updated| == |turls|
  {
    if kind.BoL? then seq(|turls|, i requires 0 <= i < |turls| => Recalled(turls[i], onDisk)) else turls
  }

  /** The request status that srmStatusOfBringOnline reports: if every slot has a SURL with a terminal
      status, it is decided by these; otherwise it is the given one. */
  function OverallStatus(kind: Kind, given: StatusCode, size: nat, turls: seq<Turl>): StatusCode {
    if kind.BoL? && size > 0 && |turls| == size && forall i :: 0 <= i < size ==> Terminal(turls[i].status)
    then
      if forall i :: 0 <= i < size ==> Successful(turls[i].status) then SUCCESS
      else if forall i :: 0 <= i < size ==> !Successful(turls[i].status) then FAILURE
      else PARTIAL_SUCCESS
    else given
  }

  /** What the two counters of buildResponse amount to. */
  lemma {:induction false} CountersDecide(turls: seq<Turl>)
    ensures var s, f := Total(turls, IsSuccessful), Total(turls, IsFailed);
      && s >= 0 && f >= 0 && s + f <= |turls|
      && (s + f == |turls| <==> forall t :: t in turls ==> Terminal(t.status))
      && (s == 0 <==> forall t :: t in turls ==> !Successful(t.status))
      && (f == 0 <==> forall t :: t in turls ==> !Terminal(t.status) || Successful(t.status))
  {
    if turls != [] {
      CountersDecide(turls[1..]);
      assert turls == [turls[0]] + turls[1..];
    }
  }

  lemma UpdatedAt(kind: Kind, turls: seq<Turl>, onDisk: string -> bool, i: nat)
    requires i < |turls|
    ensures Updated(kind, turls, onDisk)[i] ==
      if kind.BoL? && turls[i].status.REQUEST_INPROGRESS? && onDisk(turls[i].surl)
      then turls[i].(status := SUCCESS, explanation := "File recalled from tape") else turls[i]
  {
  }

  lemma Filled(files: seq<Option<FileStatus>>, turls: seq<Turl>)
    requires |turls| <= |files|
    requires forall j :: 0 <= j < |turls| ==> files[j] == Some(Report(turls[j]))
    requires forall j :: |turls| <= j < |files| ==> files[j] == None
    ensures files == Reports(turls) + Nulls(|files| - |turls|)
  {
  }

  lemma CountersAppend(turls: seq<Turl>, turl: Turl)
    ensures Total(turls + [turl], IsSuccessful) == Total(turls, IsSuccessful) + IsSuccessful(turl)
    ensures Total(turls + [turl], IsFailed) == Total(turls, IsFailed) + IsFailed(turl)
  {
    TotalConcat(turls, [turl], IsSuccessful);
    TotalConcat(turls, [turl], IsFailed);
  }

  class FileStatusRequest {
    const kind: Kind
    var surls: seq<string> // in the iteration order of m_surls
    var turls: seq<Turl>   // in the iteration order of m_turls
    var status: StatusCode
    var explanation: string
    var storedClientDn: string
    var builtResponse: Option<StatusResponse>

    /** loadFromDB and fillCommonFields. A row with an invalid SURL ends it by invalid_surl, even if
        the row has no status. */
    method LoadFromDB(rows: seq<Row>) returns (error: Option<StatusError>)
      requires turls == []
      modifies this`turls, this`status, this`explanation, this`storedClientDn
      ensures error == (
        if rows == [] then Some(TokenNotFound)
        else if rows[0].clientDn == "" || rows[0].requestStatus.None? then Some(StatusError.LogicError)
        else if !Loadable(rows) then Some(StatusError.InvalidSurl)
        else None)
      ensures error == Some(TokenNotFound) || error == Some(StatusError.LogicError) ==>
        turls == [] && status == old(status) && explanation == old(explanation)
      ensures error.None? || error == Some(StatusError.InvalidSurl) ==>
        && storedClientDn == rows[0].clientDn
        && status == rows[0].requestStatus.value && explanation == rows[0].requestExplanation
      ensures error == Some(StatusError.InvalidSurl) ==> StoppedAtInvalid(rows, turls)
      ensures error.None? ==> turls == TurlsOf(rows)
    {
      if rows == [] {
        return Some(TokenNotFound);
      }
      if rows[0].clientDn == "" {
        return Some(StatusError.LogicError);
      }
      storedClientDn := rows[0].clientDn;
      if rows[0].requestStatus.None? {
        return Some(StatusError.LogicError);
      }
      status, explanation := rows[0].requestStatus.value, rows[0].requestExplanation;
      hide Loadable, TurlsOf, Valid;
      var ok := LoadRows(rows);
      return if ok then None else Some(StatusError.InvalidSurl);
    }

    /** The row loop of loadFromDB; false where storm::Surl throws. */
    method LoadRows(rows: seq<Row>) returns (ok: bool)
      requires turls == []
      modifies this`turls
      ensures ok <==> Loadable(rows)
      ensures ok ==> turls == TurlsOf(rows)
      ensures !ok ==> StoppedAtInvalid(rows, turls)
    {
      hide Valid, Normalize, Escape;
      var i := 0;
      while i < |rows|
        invariant i <= |rows| && Loadable(rows[..i]) && turls == TurlsOf(rows[..i])
      {
        assert rows[..i + 1][..i] == rows[..i];
        if !Valid(rows[i].surl) {
          return false;
        }
        if rows[i].code.Some? {
          turls := turls + [TurlOf(rows[i])];
        }
        i := i + 1;
      }
      assert rows[..|rows|] == rows;
      return true;
    }

    method CheckSurl(surl: string) returns (found: bool)
      ensures found <==> Named(turls, surl)
    {
      for i := 0 to |turls|
        invariant forall j :: 0 <= j < i ==> turls[j].surl != surl
      {
        if turls[i].surl == surl {
          return true;
        }
      }
      return false;
    }

    /** The loop of buildResponse over the SURLs that have a row, with the two counters of
        srmStatusOfBringOnline. It does not ask whether the array has a slot for each of them. */
    method FillFound(files: array<Option<FileStatus>>, onDisk: string -> bool)
      returns (overrun: bool, countSuccess: int, countFailure: int)
      requires forall i :: 0 <= i < files.Length ==> files[i] == None
      modifies this`turls, files
      ensures overrun <==> old(|turls|) > files.Length
      ensures !overrun ==>
        && turls == Updated(kind, old(turls), onDisk)
        && files[..] == Reports(turls) + Nulls(files.Length - |turls|)
        && countSuccess == Total(turls, IsSuccessful) && countFailure == Total(turls, IsFailed)
    {
      hide Updated, Recalled, Reports, Nulls;
      overrun, countSuccess, countFailure := false, 0, 0;
      var given, updated := turls, [];
      ghost var all := Updated(kind, given, onDisk);
      for index := 0 to |given|
        invariant turls == given == old(turls) && |updated| == index <= files.Length
        invariant updated == all[..index]
        invariant forall j :: 0 <= j < index ==> files[j] == Some(Report(updated[j]))
        invariant forall j :: index <= j < files.Length ==> files[j] == None
        invariant countSuccess == Total(updated, IsSuccessful) && countFailure == Total(updated, IsFailed)
      {
        if index >= files.Length {
          return true, countSuccess, countFailure;
        }
        var turl := given[index];
        if kind.BoL? && turl.status.REQUEST_INPROGRESS? {
          if onDisk(turl.surl) {
            turl := turl.(status := SUCCESS, explanation := "File recalled from tape");
            countSuccess := countSuccess + 1;
          }
        } else if Successful(turl.status) {
          countSuccess := countSuccess + 1;
        } else if !turl.status.REQUEST_QUEUED? && !turl.status.REQUEST_INPROGRESS? {
          countFailure := countFailure + 1;
        }
        UpdatedAt(kind, given, onDisk, index);
        assert turl == all[index];
        files[index] := Some(Report(turl));
        CountersAppend(updated, turl);
        updated := updated + [turl];
      }
      turls := updated;
      Filled(files[..], turls);
    }

    /** addMissingSurls; false where the source throws logic_error. */
    method AddMissingSurls(files: array<Option<FileStatus>>) returns (ok: bool)
      modifies files
      ensures ok <==> StartIndex(turls) + |Missing(surls, turls)| <= files.Length || Missing(surls, turls) == []
      ensures ok && Missing(surls, turls) != [] ==>
        files[..] == Overwritten(old(files[..]), StartIndex(turls), NoInformationOn(Missing(surls, turls)))
      ensures Missing(surls, turls) == [] ==> files[..] == old(files[..])
    {
      hide Missing, Named, Written;
      var start := StartIndex(turls);
      var index := start;
      ghost var missing: seq<string> := [];
      for i := 0 to |surls|
        invariant missing == Missing(surls[..i], turls) && index == start + |missing|
        invariant |missing| <= |Missing(surls, turls)|
        invariant index <= files.Length || missing == []
        invariant missing != [] ==> Written(old(files[..]), start, missing, files[..])
        invariant missing == [] ==> files[..] == old(files[..])
      {
        MissingStep(surls, turls, i);
        var found := CheckSurl(surls[i]);
        if found {
          continue;
        }
        if index >= files.Length {
          return false;
        }
        ghost var before := files[..];
        files[index] := Some(NoInformation(surls[i]));
        assert files[..] == before[index := Some(NoInformation(surls[i]))];
        WriteNext(old(files[..]), start, missing, before, surls[i]);
        missing := missing + [surls[i]];
        index := index + 1;
      }
      assert surls[..|surls|] == surls;
      if missing != [] {
        WrittenIsOverwritten(old(files[..]), start, missing, files[..]);
      }
      return true;
    }

    /** The part of buildResponse that fills the array; logic_error where addMissingSurls throws it. */
    method FillFiles(files: array<Option<FileStatus>>, onDisk: string -> bool)
      returns (error: Option<StatusError>, countSuccess: int, countFailure: int)
      requires files.Length == ArraySize(surls, turls)
      requires forall i :: 0 <= i < files.Length ==> files[i] == None
      modifies this`turls, files
      ensures error == Outcome(surls, old(turls))
      ensures error != Some(Overrun) ==> turls == Updated(kind, old(turls), onDisk)
      ensures error.None? ==>
        && |turls| <= ArraySize(surls, turls) && Fits(surls, turls)
        && files[..] == FilesFrom(surls, turls, StartIndex(turls))
        && countSuccess == Total(turls, IsSuccessful) && countFailure == Total(turls, IsFailed)
    {
      SameOutcome(kind, surls, turls, onDisk);
      hide Missing, Named, Updated, Reports, Nulls, NoInformationOn, Overwritten, FilesFrom, Total, Report;
      var overrun;
      overrun, countSuccess, countFailure := FillFound(files, onDisk);
      if overrun {
        return Some(Overrun), 0, 0;
      }
      error := None;
      ghost var found := files[..];
      FilledFiles(surls, turls, found);
      if |turls| < |surls| {
        var ok := AddMissingSurls(files);
        if !ok {
          error := Some(StatusError.LogicError);
        }
      }
    }

    /** The part of buildResponse that sets the request status. */
    method Aggregate(countSuccess: int, countFailure: int, size: nat)
      requires |turls| <= size && size > 0
      requires countSuccess == Total(turls, IsSuccessful) && countFailure == Total(turls, IsFailed)
      modifies this`status
      ensures status == OverallStatus(kind, old(status), size, turls)
      ensures !kind.BoL? ==> status == old(status)
    {
      CountersDecide(turls);
      hide Terminal, Successful;
      if kind.BoL? && countSuccess + countFailure == size {
        if countFailure == 0 {
          status := SUCCESS;
        } else if countSuccess == 0 {
          status := FAILURE;
        } else {
          status := PARTIAL_SUCCESS;
        }
      }
    }

    /** buildResponse. The request status may come from the database or from buildSpecificResponse. */
    method BuildResponse(onDisk: string -> bool) returns (result: Result<StatusResponse, StatusError>)
      modifies this`turls, this`status, this`builtResponse
      ensures old(builtResponse).Some? ==> result == Success(old(builtResponse).value) && unchanged(this)
      ensures old(builtResponse).None? ==>
        match Outcome(surls, old(turls))
        case Some(error) => result == Failure(error)
        case None =>
          && turls == Updated(kind, old(turls), onDisk)
          && |turls| <= ArraySize(surls, turls) && Fits(surls, turls)
          && status == OverallStatus(kind, old(status), ArraySize(surls, turls), turls)
          && result == Success(StatusResponse(status, explanation, FilesFrom(surls, turls, StartIndex(turls))))
          && builtResponse == Some(result.value)
      ensures old(builtResponse).None? && !kind.BoL? && result.Success? ==>
        status == old(status) && result.value.status == old(status)
    {
      if builtResponse.Some? {
        return Success(builtResponse.value);
      }
      SameOutcome(kind, surls, turls, onDisk);
      hide Missing, Updated, FilesFrom, Fits, OverallStatus;
      var size := if surls == [] then |turls| else |surls|;
      var files := new Option<FileStatus>[size](_ => None);
      if size > 0 {
        var error, countSuccess, countFailure := FillFiles(files, onDisk);
        if error.Some? {
          return Failure(error.value);
        }
        Aggregate(countSuccess, countFailure, size);
      } else {
        NothingToReport(kind, surls, turls, status, onDisk);
        assert files[..] == [];
      }
      builtResponse := Some(StatusResponse(status, explanation, files[..]));
      return Success(builtResponse.value);
    }

    method BuildSpecificResponse(code: StatusCode, why: string, onDisk: string -> bool)
      returns (result: Result<StatusResponse, StatusError>)
      modifies this
      ensures surls == old(surls)
      ensures old(builtResponse).Some? ==> result == Success(old(builtResponse).value)
      ensures old(builtResponse).None? ==>
        match Outcome(surls, old(turls))
        case Some(error) => result == Failure(error)
        case None =>
          && turls == Updated(kind, old(turls), onDisk)
          && |turls| <= ArraySize(surls, turls) && Fits(surls, turls)
          && result == Success(StatusResponse(OverallStatus(kind, code, ArraySize(surls, turls), turls), why,
                                              FilesFrom(surls, turls, StartIndex(turls))))
      ensures old(builtResponse).None? && !kind.BoL? && result.Success? ==> result.value.status == code
    {
      status, explanation := code, why;
      result := BuildResponse(onDisk);
    }
  }

  /** What a status update leaves alone. */
  lemma SameOutcome(kind: Kind, surls: seq<string>, turls: seq<Turl>, onDisk: string -> bool)
    ensures Outcome(surls, Updated(kind, turls, onDisk)) == Outcome(surls, turls)
    ensures Missing(surls, Updated(kind, turls, onDisk)) == Missing(surls, turls)
  {
    SameNames(surls, turls, Updated(kind, turls, onDisk));
  }

  lemma {:induction false} SameNames(surls: seq<string>, a: seq<Turl>, b: seq<Turl>)
    requires |a| == |b| && forall i :: 0 <= i < |a| ==> a[i].surl == b[i].surl
    ensures Missing(surls, a) == Missing(surls, b)
  {
    if surls != [] {
      SameNames(surls[..|surls| - 1], a, b);
    }
  }

  lemma NothingToReport(kind: Kind, surls: seq<string>, turls: seq<Turl>, status: StatusCode, onDisk: string -> bool)
    requires ArraySize(surls, turls) == 0 && |turls| == 0
    ensures turls == Updated(kind, turls, onDisk)
    ensures Outcome(surls, turls) == None && Fits(surls, turls) && FilesFrom(surls, turls, StartIndex(turls)) == []
    ensures OverallStatus(kind, status, 0, turls) == status
  {
  }

  /** What the array has to be, in terms of what FillFound and AddMissingSurls make of it. */
  lemma FilledFiles(surls: seq<string>, turls: seq<Turl>, found: seq<Option<FileStatus>>)
    requires |turls| <= |found| == ArraySize(surls, turls)
    requires found == Reports(turls) + Nulls(|found| - |turls|)
    ensures |turls| >= |surls| || Missing(surls, turls) == [] ==> Fits(surls, turls)
    ensures |turls| >= |surls| || Missing(surls, turls) == [] ==> FilesFrom(surls, turls, StartIndex(turls)) == found
    ensures |turls| < |surls| && Fits(surls, turls) ==>
      FilesFrom(surls, turls, StartIndex(turls))
      == Overwritten(found, StartIndex(turls), NoInformationOn(Missing(surls, turls)))
  {
    hide Missing;
  }

  /** The array now has the missing SURLs from start on, and is otherwise as it was. */
  predicate Written(files: seq<Option<FileStatus>>, start: nat, missing: seq<string>, now: seq<Option<FileStatus>>) {
    && |now| == |files| && start + |missing| <= |files|
    && (forall j :: 0 <= j < |files| && !(start <= j < start + |missing|) ==> now[j] == files[j])
    && (forall k :: 0 <= k < |missing| ==> now[start + k] == Some(NoInformation(missing[k])))
  }

  lemma WriteNext(files: seq<Option<FileStatus>>, start: nat, missing: seq<string>, now: seq<Option<FileStatus>>,
                  surl: string)
    requires if missing == [] then now == files else Written(files, start, missing, now)
    requires start + |missing| < |files|
    ensures |now| == |files|
    ensures Written(files, start, missing + [surl], now[start + |missing| := Some(NoInformation(surl))])
  {
  }

  lemma WrittenIsOverwritten(files: seq<Option<FileStatus>>, start: nat, missing: seq<string>,
                             now: seq<Option<FileStatus>>)
    requires Written(files, start, missing, now)
    ensures start + |missing| <= |files| && now == Overwritten(files, start, NoInformationOn(missing))
  {
    assert forall j :: start <= j < start + |missing| ==> now[start + (j - start)] == now[j];
  }

  lemma MissingStep(surls: seq<string>, turls: seq<Turl>, i: nat)
    requires i < |surls|
    ensures Missing(surls[..i + 1], turls)
         == Missing(surls[..i], turls) + (if Named(turls, surls[i]) then [] else [surls[i]])
    ensures |Missing(surls[..i + 1], turls)| <= |Missing(surls, turls)|
  {
    assert surls[..i + 1][..i] == surls[..i];
    MissingGrows(surls, turls, i + 1);
  }

  lemma {:induction false} MissingGrows(surls: seq<string>, turls: seq<Turl>, i: nat)
    requires i <= |surls|
    ensures |Missing(surls[..i], turls)| <= |Missing(surls, turls)|
  {
    if i < |surls| {
      var m := |surls| - 1;
      assert surls[..m][..i] == surls[..i];
      MissingGrows(surls[..m], turls, i);
    } else {
      assert surls[..i] == surls;
    }
  }
}
