/** What a submission means for the queries that read the tables later: the join of a request's
    file and status rows (src/frontend/GetStatusRequest.cpp, srmv2_GetRequestSummary.cpp). */
module StoredRequests {
  import opened Database
  import opened Sequences
  import opened Srm
  import opened Submission
  import opened Wrappers

  /** The SURLs of a submitted request that are not marked FAILURE, in order. */
  function QueuedUrls(surls: seq<Surl>): (urls: seq<string>)
    ensures |urls| == |surls| - CountFailed(surls)
  {
    if surls == [] then []
    else
      var before, last := QueuedUrls(surls[..|surls| - 1]), surls[|surls| - 1];
      if last.status == FAILURE then before else before + [last.url]
  }

  /** One file row of the request and one queued status row per URL, in order. */
  predicate RowsOf(urls: seq<string>, files: seq<FileRow>, statuses: seq<StatusRow>, rid: nat) {
    && |files| == |statuses| == |urls|
    && (forall j :: 0 <= j < |files| ==> files[j].surl == urls[j] && files[j].queueId == rid)
    && (forall j :: 0 <= j < |files| ==> statuses[j].fileId == files[j].id && statuses[j].code == REQUEST_QUEUED)
  }

  lemma RowsExtend(urls: seq<string>, url: string, files: seq<FileRow>, statuses: seq<StatusRow>, rid: nat)
    requires files != [] && statuses != []
    requires RowsOf(urls, files[..|files| - 1], statuses[..|statuses| - 1], rid)
    requires files[|files| - 1].surl == url && files[|files| - 1].queueId == rid
    requires statuses[|statuses| - 1].fileId == files[|files| - 1].id && statuses[|statuses| - 1].code == REQUEST_QUEUED
    ensures RowsOf(urls + [url], files, statuses, rid)
  {
  }

  /** The linked rows are those of the queued SURLs. */
  lemma {:induction false} LinkedRows(kind: Kind, surls: seq<Surl>, rid: nat,
                                      dirs: seq<DirRow>, files: seq<FileRow>, statuses: seq<StatusRow>)
    requires Linked(kind, surls, rid, dirs, files, statuses)
    ensures RowsOf(QueuedUrls(surls), files, statuses, rid)
    decreases |surls|
  {
    if surls != [] {
      hide RowsOf;
      var m, f, s, d := |surls| - 1, |files| - 1, |statuses| - 1, |dirs| - 1;
      var urls := QueuedUrls(surls[..m]);
      if surls[m].status == FAILURE {
        LinkedRows(kind, surls[..m], rid, dirs, files, statuses);
        assert QueuedUrls(surls) == urls;
      } else {
        LinkedRows(kind, surls[..m], rid, if HasDirOption(kind, surls[m]) then dirs[..d] else dirs,
                   files[..f], statuses[..s]);
        RowsExtend(urls, surls[m].url, files, statuses, rid);
      }
    }
  }

  // ----- dir options -----

  /** The request has a file row for this SURL; with a dir option, in srmPrepareToGet, it refers to a row
      with the fields of the option (the levels only if positive), and otherwise to none. */
  ghost predicate StoredWithOption(kind: Kind, surl: Surl, rid: nat, dirs: seq<DirRow>, files: seq<FileRow>) {
    exists f :: 0 <= f < |files| && files[f].surl == surl.url && files[f].queueId == rid
      && if kind.PtP? || surl.dirOption.None? then files[f].dirId == None
         else kind.PtG? && exists d :: 0 <= d < |dirs| && files[f].dirId == Some(dirs[d].id)
                                       && OptionStored(surl.dirOption.value, dirs[d])
  }

  predicate OptionStored(option: DirOption, row: DirRow) {
    && option.isDirectory == row.isDirectory && option.allLevels == row.allLevels
    && (option.numLevels > 0 ==> row.levels == Some(option.numLevels))
    && (option.numLevels <= 0 ==> row.levels == None)
  }

  lemma LaterRows(kind: Kind, surl: Surl, rid: nat, dirs: seq<DirRow>, files: seq<FileRow>,
                  dirs': seq<DirRow>, files': seq<FileRow>)
    requires StoredWithOption(kind, surl, rid, dirs, files) && dirs <= dirs' && files <= files'
    ensures StoredWithOption(kind, surl, rid, dirs', files')
  {
  }

  lemma {:induction false} LinkedDirOptions(kind: Kind, surls: seq<Surl>, rid: nat,
                                            dirs: seq<DirRow>, files: seq<FileRow>, statuses: seq<StatusRow>)
    requires Linked(kind, surls, rid, dirs, files, statuses)
    ensures forall i :: 0 <= i < |surls| && surls[i].status != FAILURE ==>
      StoredWithOption(kind, surls[i], rid, dirs, files)
    decreases |surls|
  {
    if surls != [] {
      var m, f, s, d := |surls| - 1, |files| - 1, |statuses| - 1, |dirs| - 1;
      if surls[m].status == FAILURE {
        LinkedDirOptions(kind, surls[..m], rid, dirs, files, statuses);
      } else {
        assert StoredWithOption(kind, surls[m], rid, dirs, files);
        var before := if surls[m].dirOption.Some? && !kind.PtP? then dirs[..d] else dirs;
        LinkedDirOptions(kind, surls[..m], rid, before, files[..f], statuses[..s]);
        hide StoredWithOption;
        forall i | 0 <= i < m && surls[i].status != FAILURE
          ensures StoredWithOption(kind, surls[i], rid, dirs, files)
        {
          assert surls[..m][i] == surls[i];
          LaterRows(kind, surls[i], rid, before, files[..f], dirs, files);
        }
      }
    }
  }

  // ----- no orphans -----

  function FileIds(files: seq<FileRow>): set<nat> { set f | f in files :: f.id }

  function StatusFileIds(statuses: seq<StatusRow>): set<nat> { set s | s in statuses :: s.fileId }

  function DirIds(dirs: seq<DirRow>): set<nat> { set d | d in dirs :: d.id }

  function FileDirIds(files: seq<FileRow>): set<nat> { set f | f in files && f.dirId.Some? :: f.dirId.value }

  function QueueIds(queue: seq<QueueRow>): set<nat> { set q | q in queue :: q.id }

  /** Every status row has a file and every file a status row, every dir-option row is used and every
      one that is used exists, and every file and protocol row has a request. */
  predicate NoOrphans(t: Tables) {
    && StatusFileIds(t.statuses) == FileIds(t.files)
    && DirIds(t.dirs) == FileDirIds(t.files)
    && (forall f :: f in t.files ==> f.queueId in QueueIds(t.queue))
    && (forall p :: p in t.protocols ==> p.queueId in QueueIds(t.queue))
  }

  lemma {:induction false} LinkedIds(kind: Kind, surls: seq<Surl>, rid: nat,
                                     dirs: seq<DirRow>, files: seq<FileRow>, statuses: seq<StatusRow>)
    requires Linked(kind, surls, rid, dirs, files, statuses)
    ensures StatusFileIds(statuses) == FileIds(files) && DirIds(dirs) == FileDirIds(files)
    decreases |surls|
  {
    if surls != [] {
      hide FileIds, StatusFileIds, DirIds, FileDirIds, LastLinked, LastHasDir;
      var m, f, s, d := |surls| - 1, |files| - 1, |statuses| - 1, |dirs| - 1;
      if surls[m].status == FAILURE {
        LinkedIds(kind, surls[..m], rid, dirs, files, statuses);
      } else {
        LastIds(kind, surls[m], rid, dirs, files, statuses);
        LinkedIds(kind, surls[..m], rid, if LastHasDir(kind, surls[m], dirs) then dirs[..d] else dirs,
                  files[..f], statuses[..s]);
      }
    }
  }

  /** What the rows of one more SURL add to the identifiers. */
  lemma LastIds(kind: Kind, surl: Surl, rid: nat, dirs: seq<DirRow>, files: seq<FileRow>, statuses: seq<StatusRow>)
    requires LastLinked(kind, surl, rid, dirs, files, statuses)
    ensures files != [] && statuses != [] && (LastHasDir(kind, surl, dirs) ==> dirs != [])
    ensures var f, s, d := |files| - 1, |statuses| - 1, |dirs| - 1;
      var dir := if LastHasDir(kind, surl, dirs) then {dirs[d].id} else {};
      && FileIds(files) == FileIds(files[..f]) + {files[f].id}
      && StatusFileIds(statuses) == StatusFileIds(statuses[..s]) + {files[f].id}
      && DirIds(dirs) == DirIds(if LastHasDir(kind, surl, dirs) then dirs[..d] else dirs) + dir
      && FileDirIds(files) == FileDirIds(files[..f]) + dir
  {
    var f, s, d := |files| - 1, |statuses| - 1, |dirs| - 1;
    assert files == files[..f] + [files[f]] && statuses == statuses[..s] + [statuses[s]];
    IdsConcat(files[..f], [files[f]], statuses[..s], [statuses[s]]);
    IdsOfOne(files[f], statuses[s]);
    if LastHasDir(kind, surl, dirs) {
      assert dirs == dirs[..d] + [dirs[d]];
      DirIdsConcat(dirs[..d], [dirs[d]]);
    }
    hide FileIds, StatusFileIds, FileDirIds;
  }

  lemma IdsOfOne(file: FileRow, status: StatusRow)
    ensures FileIds([file]) == {file.id} && StatusFileIds([status]) == {status.fileId}
    ensures FileDirIds([file]) == if file.dirId.Some? then {file.dirId.value} else {}
  {
    assert [file][0] == file;
  }

  lemma IdsConcat(files: seq<FileRow>, files': seq<FileRow>, statuses: seq<StatusRow>, statuses': seq<StatusRow>)
    ensures FileIds(files + files') == FileIds(files) + FileIds(files')
    ensures FileDirIds(files + files') == FileDirIds(files) + FileDirIds(files')
    ensures StatusFileIds(statuses + statuses') == StatusFileIds(statuses) + StatusFileIds(statuses')
  {
  }

  lemma DirIdsConcat(dirs: seq<DirRow>, dirs': seq<DirRow>)
    ensures DirIds(dirs + dirs') == DirIds(dirs) + DirIds(dirs')
  {
  }

  lemma {:induction false} StoredProtocolsBelong(protocols: seq<string>, rid: nat, n: nat, fails: nat -> bool)
    ensures forall p :: p in StoredProtocols(protocols, rid, n, fails) ==> p.queueId == rid && p.protocol in protocols
  {
    if protocols != [] {
      StoredProtocolsBelong(protocols[..|protocols| - 1], rid, n, fails);
    }
  }

  /** Although all SURLs share one savepoint name, no submission leaves an orphan row behind. */
  lemma SubmissionLeavesNoOrphans(kind: Kind, given: seq<Surl>, now: seq<Surl>, protocols: seq<string>,
                                  n: nat, fails: nat -> bool, row: QueueRow, base: Tables, committed: Tables)
    requires Submitted(kind, given, now, protocols, n, fails, row, base, committed) && NoOrphans(base)
    ensures NoOrphans(committed)
  {
    if !AllFailed(now) {
      var f, s, d := |base.files|, |base.statuses|, |base.dirs|;
      assert committed.files == base.files + committed.files[f..];
      assert committed.statuses == base.statuses + committed.statuses[s..];
      assert committed.dirs == base.dirs + committed.dirs[d..];
      IdsConcat(base.files, committed.files[f..], base.statuses, committed.statuses[s..]);
      DirIdsConcat(base.dirs, committed.dirs[d..]);
      LinkedIds(kind, now, row.id, committed.dirs[d..], committed.files[f..], committed.statuses[s..]);
      LinkedRows(kind, now, row.id, committed.dirs[d..], committed.files[f..], committed.statuses[s..]);
      StoredProtocolsBelong(protocols, row.id, ClockAt(kind, given, |given|, n, fails), fails);
      assert row in committed.queue;
    }
  }

  // ----- the join that later requests read -----

  /** A file of a request with one of its statuses. */
  datatype FileState = FileState(surl: string, code: StatusCode)

  function StatesOfFile(statuses: seq<StatusRow>, file: FileRow): seq<FileState> {
    if statuses == [] then []
    else
      var m := |statuses| - 1;
      StatesOfFile(statuses[..m], file)
      + (if statuses[m].fileId == file.id then [FileState(file.surl, statuses[m].code)] else [])
  }

  /** The join of files and statuses ON (request_queueID = rid AND fileID = ID). */
  function StateJoin(files: seq<FileRow>, statuses: seq<StatusRow>, rid: nat): seq<FileState> {
    if files == [] then []
    else
      var m := |files| - 1;
      StateJoin(files[..m], statuses, rid)
      + (if files[m].queueId == rid then StatesOfFile(statuses, files[m]) else [])
  }

  function RequestFiles(t: Tables, rid: nat): seq<FileState> { StateJoin(t.files, t.statuses, rid) }

  function Codes(states: seq<FileState>): seq<StatusCode> {
    if states == [] then [] else Codes(states[..|states| - 1]) + [states[|states| - 1].code]
  }

  /** SELECT statusCode FROM the join. */
  function RequestStatuses(t: Tables, rid: nat): seq<StatusCode> { Codes(RequestFiles(t, rid)) }

  /** The files of these URLs, all queued. */
  function QueuedStates(urls: seq<string>): (states: seq<FileState>)
    ensures |states| == |urls|
    ensures forall i :: 0 <= i < |urls| ==> states[i].surl == urls[i] && states[i].code == REQUEST_QUEUED
  {
    if urls == [] then [] else QueuedStates(urls[..|urls| - 1]) + [FileState(urls[|urls| - 1], REQUEST_QUEUED)]
  }

  lemma {:induction false} QueuedCodes(urls: seq<string>)
    ensures Codes(QueuedStates(urls)) == Repeat(REQUEST_QUEUED, |urls|)
  {
    if urls != [] {
      var before := QueuedStates(urls[..|urls| - 1]);
      QueuedCodes(urls[..|urls| - 1]);
      ConcatParts(before, [FileState(urls[|urls| - 1], REQUEST_QUEUED)]);
    }
  }

  lemma {:induction false} StatusesConcat(a: seq<StatusRow>, b: seq<StatusRow>, file: FileRow)
    ensures StatesOfFile(a + b, file) == StatesOfFile(a, file) + StatesOfFile(b, file)
    decreases |b|
  {
    if b == [] {
      assert a + b == a;
    } else {
      var m := |b| - 1;
      assert (a + b)[..|a + b| - 1] == a + b[..m];
      StatusesConcat(a, b[..m], file);
    }
  }

  lemma {:induction false} JoinConcat(a: seq<FileRow>, b: seq<FileRow>, statuses: seq<StatusRow>, rid: nat)
    ensures StateJoin(a + b, statuses, rid) == StateJoin(a, statuses, rid) + StateJoin(b, statuses, rid)
    decreases |b|
  {
    if b == [] {
      assert a + b == a;
    } else {
      var m := |b| - 1;
      assert (a + b)[..|a + b| - 1] == a + b[..m];
      JoinConcat(a, b[..m], statuses, rid);
    }
  }

  lemma {:induction false} NoStatuses(statuses: seq<StatusRow>, file: FileRow)
    requires file.id !in StatusFileIds(statuses)
    ensures StatesOfFile(statuses, file) == []
  {
    if statuses != [] {
      var m := |statuses| - 1;
      assert statuses[m] in statuses;
      NoStatuses(statuses[..m], file);
    }
  }

  lemma {:induction false} NoFiles(files: seq<FileRow>, statuses: seq<StatusRow>, rid: nat)
    requires forall f :: f in files ==> f.queueId != rid
    ensures StateJoin(files, statuses, rid) == []
  {
    if files != [] {
      NoFiles(files[..|files| - 1], statuses, rid);
    }
  }

  /** Status rows of other files do not matter. */
  lemma {:induction false} OtherStatuses(files: seq<FileRow>, statuses: seq<StatusRow>, more: seq<StatusRow>, rid: nat)
    requires FileIds(files) !! StatusFileIds(more)
    ensures StateJoin(files, statuses + more, rid) == StateJoin(files, statuses, rid)
  {
    if files != [] {
      var m := |files| - 1;
      assert files[m] in files && files[m].id in FileIds(files);
      assert FileIds(files[..m]) <= FileIds(files);
      OtherStatuses(files[..m], statuses, more, rid);
      StatusesConcat(statuses, more, files[m]);
      NoStatuses(more, files[m]);
    }
  }

  predicate DistinctIds(files: seq<FileRow>) {
    forall i, j :: 0 <= i < j < |files| ==> files[i].id < files[j].id
  }

  function Repeat<T>(x: T, n: nat): seq<T> { if n == 0 then [] else Repeat(x, n - 1) + [x] }

  /** Status rows of earlier files do not matter to the new ones. */
  lemma {:induction false} NewJoin(files: seq<FileRow>, earlier: seq<StatusRow>, statuses: seq<StatusRow>, rid: nat)
    requires FileIds(files) !! StatusFileIds(earlier)
    ensures StateJoin(files, earlier + statuses, rid) == StateJoin(files, statuses, rid)
  {
    if files != [] {
      var m := |files| - 1;
      assert files[m] in files && files[m].id in FileIds(files);
      assert FileIds(files[..m]) <= FileIds(files);
      NewJoin(files[..m], earlier, statuses, rid);
      StatusesConcat(earlier, statuses, files[m]);
      NoStatuses(earlier, files[m]);
    }
  }

  /** One more file with its status row: the join gains one state. */
  lemma JoinExtend(files: seq<FileRow>, file: FileRow, statuses: seq<StatusRow>, status: StatusRow, rid: nat)
    requires status.fileId == file.id && file.queueId == rid
    requires file.id !in FileIds(files) && file.id !in StatusFileIds(statuses)
    ensures StateJoin(files + [file], statuses + [status], rid)
         == StateJoin(files, statuses, rid) + [FileState(file.surl, status.code)]
  {
    assert StatusFileIds([status]) == {file.id};
    OtherStatuses(files, statuses, [status], rid);
    StatusesConcat(statuses, [status], file);
    NoStatuses(statuses, file);
    assert [status][..0] == [];
    assert (files + [file])[..|files + [file]| - 1] == files;
  }

  lemma LastRows(urls: seq<string>, files: seq<FileRow>, statuses: seq<StatusRow>, rid: nat)
    requires RowsOf(urls, files, statuses, rid) && DistinctIds(files) && files != []
    ensures var m := |files| - 1;
      && RowsOf(urls[..m], files[..m], statuses[..m], rid) && DistinctIds(files[..m])
      && statuses[m].fileId == files[m].id && statuses[m].code == REQUEST_QUEUED && files[m].queueId == rid
      && files[m].surl == urls[m]
      && files[m].id !in FileIds(files[..m]) && files[m].id !in StatusFileIds(statuses[..m])
  {
    var m := |files| - 1;
    forall s | s in statuses[..m] ensures s.fileId != files[m].id {
      var j :| 0 <= j < m && statuses[j] == s;
    }
    forall f | f in files[..m] ensures f.id != files[m].id {
      var j :| 0 <= j < m && files[j] == f;
    }
  }

  lemma LastJoined(urls: seq<string>, files: seq<FileRow>, statuses: seq<StatusRow>, rid: nat)
    requires RowsOf(urls, files, statuses, rid) && DistinctIds(files) && files != []
    ensures |urls| == |statuses| == |files|
    ensures var m := |files| - 1;
      StateJoin(files, statuses, rid)
      == StateJoin(files[..m], statuses[..m], rid) + [FileState(urls[m], REQUEST_QUEUED)]
  {
    assert |files| == |statuses| == |urls|;
    hide RowsOf, DistinctIds, StateJoin;
    var m := |files| - 1;
    LastRows(urls, files, statuses, rid);
    JoinExtend(files[..m], files[m], statuses[..m], statuses[m], rid);
    assert files == files[..m] + [files[m]];
    assert statuses == statuses[..m] + [statuses[m]];
  }

  /** Files with one queued status row each. */
  lemma {:induction false} PairedJoin(urls: seq<string>, files: seq<FileRow>, statuses: seq<StatusRow>, rid: nat)
    requires RowsOf(urls, files, statuses, rid) && DistinctIds(files)
    ensures StateJoin(files, statuses, rid) == QueuedStates(urls)
    decreases |files|
  {
    assert |urls| == |files|;
    if files != [] {
      hide RowsOf, DistinctIds, StateJoin;
      var m := |files| - 1;
      LastJoined(urls, files, statuses, rid);
      LastRows(urls, files, statuses, rid);
      PairedJoin(urls[..m], files[..m], statuses[..m], rid);
    }
  }

  lemma NewFilesAreNew(a: seq<FileRow>, b: seq<FileRow>)
    requires DistinctIds(a + b)
    ensures DistinctIds(b) && FileIds(a) !! FileIds(b)
  {
    assert forall j :: 0 <= j < |b| ==> (a + b)[|a| + j] == b[j];
    assert forall i :: 0 <= i < |a| ==> (a + b)[i] == a[i];
  }

  /** After a submission that stored something, the join finds exactly the queued SURLs of the new
      request, all queued, and for every other request what it found before. */
  lemma JoinAfterSubmission(kind: Kind, surls: seq<Surl>, row: QueueRow, base: Tables, committed: Tables,
                            protocols: seq<ProtocolRow>, rid: nat)
    requires Stored(base, committed, [row], kind, surls, row.id, protocols) && NoOrphans(base)
    requires row.id !in QueueIds(base.queue) && DistinctIds(committed.files)
    ensures RequestFiles(committed, rid) ==
      if rid == row.id then QueuedStates(QueuedUrls(surls)) else RequestFiles(base, rid)
    ensures RequestStatuses(committed, row.id) == Repeat(REQUEST_QUEUED, |QueuedUrls(surls)|)
  {
    hide Linked, DistinctIds, StateJoin, Codes, QueuedStates, Repeat;
    NewFilesOnly(kind, surls, row, base, committed, protocols, rid);
    NewFilesOnly(kind, surls, row, base, committed, protocols, row.id);
    QueuedCodes(QueuedUrls(surls));
  }

  lemma NewFilesOnly(kind: Kind, surls: seq<Surl>, row: QueueRow, base: Tables, committed: Tables,
                     protocols: seq<ProtocolRow>, rid: nat)
    requires Stored(base, committed, [row], kind, surls, row.id, protocols) && NoOrphans(base)
    requires row.id !in QueueIds(base.queue) && DistinctIds(committed.files)
    ensures RequestFiles(committed, rid) ==
      if rid == row.id then QueuedStates(QueuedUrls(surls)) else RequestFiles(base, rid)
  {
    hide Linked, DistinctIds;
    var f, s, d := |base.files|, |base.statuses|, |base.dirs|;
    var files, statuses := committed.files[f..], committed.statuses[s..];
    assert committed.files == base.files + files && committed.statuses == base.statuses + statuses;
    LinkedRows(kind, surls, row.id, committed.dirs[d..], files, statuses);
    LinkedIds(kind, surls, row.id, committed.dirs[d..], files, statuses);
    NewFilesAreNew(base.files, files);
    JoinConcat(base.files, files, base.statuses + statuses, rid);
    OtherStatuses(base.files, base.statuses, statuses, rid);
    NewJoin(files, base.statuses, statuses, rid);
    if rid == row.id {
      NoFiles(base.files, base.statuses, rid);
      PairedJoin(QueuedUrls(surls), files, statuses, rid);
    } else {
      NoFiles(files, base.statuses + statuses, rid);
    }
  }

  /** What these results ask of the identifiers follows from the tables being well-formed. */
  lemma IdentifiersAreFresh(base: Tables, ids: Ids, committed: Tables, later: Ids)
    requires WellFormed(base, ids) && WellFormed(committed, later)
    ensures ids.queue !in QueueIds(base.queue) && DistinctIds(committed.files)
  {
  }

  // ----- which SURLs are queued -----

  /** srmBringOnline stores nothing, whatever the database does, if every SURL has a dir option:
      the statement it sends for a dir option is incomplete. */
  lemma DirOptionsAreNeverBroughtOnline(given: seq<Surl>, now: seq<Surl>, protocols: seq<string>, n: nat,
                                        fails: nat -> bool, row: QueueRow, base: Tables, committed: Tables)
    requires Submitted(BoL, given, now, protocols, n, fails, row, base, committed)
    requires forall i :: 0 <= i < |given| ==> given[i].dirOption.Some?
    ensures AllFailed(now) && committed == base
  {
    forall i | 0 <= i < |now| ensures now[i].status == FAILURE {
      assert now[i] == OutcomeAt(BoL, given, i, n, fails);
    }
  }

  /** If no statement fails, all SURLs are queued, except those of srmBringOnline with a dir option. */
  lemma OutcomesWithoutFailures(kind: Kind, given: seq<Surl>, now: seq<Surl>, protocols: seq<string>, n: nat,
                                fails: nat -> bool, row: QueueRow, base: Tables, committed: Tables)
    requires Submitted(kind, given, now, protocols, n, fails, row, base, committed) && AllQueued(given)
    requires forall j :: !fails(j)
    ensures forall i :: 0 <= i < |now| ==>
      (now[i].status == REQUEST_QUEUED <==> !(kind.BoL? && given[i].dirOption.Some?))
  {
    forall i | 0 <= i < |now|
      ensures now[i].status == REQUEST_QUEUED <==> !(kind.BoL? && given[i].dirOption.Some?)
    {
      assert now[i] == OutcomeAt(kind, given, i, n, fails);
    }
  }

  // ----- the protocol rows -----

  /** a is b without some of its elements, in order. */
  ghost predicate Subsequence<T(!new)>(a: seq<T>, b: seq<T>)
    decreases |b|
  {
    if a == [] then true
    else
      && b != []
      && (Subsequence(a, b[..|b| - 1])
          || (a[|a| - 1] == b[|b| - 1] && Subsequence(a[..|a| - 1], b[..|b| - 1])))
  }

  function ProtocolNames(rows: seq<ProtocolRow>): (names: seq<string>)
    ensures |names| == |rows| && forall i :: 0 <= i < |rows| ==> names[i] == rows[i].protocol
  {
    if rows == [] then [] else ProtocolNames(rows[..|rows| - 1]) + [rows[|rows| - 1].protocol]
  }

  lemma {:induction false} StoredProtocolsInOrder(protocols: seq<string>, rid: nat, n: nat, fails: nat -> bool)
    ensures Subsequence(ProtocolNames(StoredProtocols(protocols, rid, n, fails)), protocols)
  {
    if protocols != [] {
      var m := |protocols| - 1;
      var before := StoredProtocols(protocols[..m], rid, n, fails);
      StoredProtocolsInOrder(protocols[..m], rid, n, fails);
      if fails(n + m) {
        assert StoredProtocols(protocols, rid, n, fails) == before;
      } else {
        var rows := before + [ProtocolRow(rid, protocols[m])];
        assert rows[..|rows| - 1] == before;
        assert ProtocolNames(rows) == ProtocolNames(before) + [protocols[m]];
        assert ProtocolNames(rows)[..|rows| - 1] == ProtocolNames(before);
      }
    }
  }

  /** No failing statement: the names of the new rows are exactly the protocols. */
  lemma AllProtocolsStored(protocols: seq<string>, rid: nat, n: nat, fails: nat -> bool, rows: seq<ProtocolRow>)
    requires EachStored(protocols, rid, n, fails, rows)
    requires forall j :: n <= j < n + |protocols| ==> !fails(j)
    ensures ProtocolNames(rows) == protocols
  {
    AllSucceed(n, |protocols|, fails);
    forall i | 0 <= i < |protocols| ensures i < |rows| && rows[i].protocol == protocols[i] {
      AllSucceed(n, i, fails);
    }
    hide EachStored, Successes;
  }

  lemma {:induction false} AllSucceed(n: nat, i: nat, fails: nat -> bool)
    requires forall j :: n <= j < n + i ==> !fails(j)
    ensures |Successes(n, i, fails)| == i
  {
    if i == 0 {
      assert Successes(n, 0, fails) == {};
    } else {
      AllSucceed(n, i - 1, fails);
      OneMoreSuccess(n, i - 1, fails);
    }
  }

  lemma OutcomesAreQueuedOrFailed(kind: Kind, given: seq<Surl>, now: seq<Surl>, n: nat, fails: nat -> bool)
    requires Marked(kind, given, now, |given|, n, fails) && AllQueued(given)
    ensures forall i :: 0 <= i < |now| ==> now[i].status == FAILURE || now[i].status == REQUEST_QUEUED
  {
    forall i | 0 <= i < |now| ensures now[i].status == FAILURE || now[i].status == REQUEST_QUEUED {
      assert now[i] == OutcomeAt(kind, given, i, n, fails);
    }
  }
}
