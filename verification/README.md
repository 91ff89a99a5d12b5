# The StoRM frontend, modelled in Dafny

StoRM frontend is the SRM v2.2 server of the StoRM storage manager. This project models the
engines behind its SOAP operations and proves what each of them keeps, promises or loses.

| module | what it models |
|---|---|
| `ThreadPool`, `TaskOrder` | the bounded task queue with its two condition variables and the worker pool, as steps of interleaved threads, and the pool object whose methods take these steps; what the sequence of steps alone says about the order and fate of the tasks |
| `Database` | one connection: committed and working tables, named savepoints, identifiers that survive rollbacks, statements that may fail |
| `ConnectionPool` | the table of one database context per thread |
| `Protocols` | the list of supported transfer protocols |
| `Submission` | the insertion of srmPrepareToGet, srmPrepareToPut and srmBringOnline: one transaction, one savepoint name re-used for every SURL |
| `StoredRequests` | what a submission means for later readers: no orphan rows, the join of files and statuses |
| `RequestProcessing` | from the token to the response, and the answer compared with what is committed |
| `FileStatuses`, `StatusAnswers`, `StatusProcessing`, `StatusQueries` | srmStatusOfGetRequest, srmStatusOfPutRequest and srmStatusOfBringOnlineRequest: loading the rows and filling the array of file statuses; what the answer says about the rows; every path to it; the query right after a submission |
| `RequestSummary` | srmGetRequestSummary |
| `SqlString`, `JoinedLists`, `SurlNormalizer` | the in-place escaper, lists joined into one string, SURL validation and normalisation |
| `Monitors`, `Monitoring` | the statistics of one operation, merged round by round, and the periodic report over all of them |
| `LogBuffer` | log lines composed in 1024 bytes |
| `Sequences`, `Srm`, `Wrappers` | sums over sequences, status codes, optional values |

What comes from outside is a parameter: which statements fail (a function of the statement's
number), the rows a query selects, whether a file is on disk, generated UUIDs, the texts of a log
prefix, the square root, and which sleeping thread a notification wakes.

Verify everything with `dafny verify dfyconfig.toml`.

## Where the code does something else than it is meant to

The model follows the code. In these places the intended property is false; for each there is an
exact condition.

- `addMissingSurls` starts at the slot of the last row instead of the one behind it
  (src/frontend/GetStatusRequest.cpp:250, PutStatusRequest.cpp:303, BolStatusRequest.cpp:253):
  `StatusAnswers.AnswerIsComplete`.
- The status requests normalise and escape the stored SURLs once more
  (src/frontend/GetStatusRequest.cpp:95, Surl.hpp:30-39), so that a stored SURL that is no fixed point
  is answered under another one, and an invalid one ends the request:
  `StatusAnswers.AnswerIsComplete`, `StatusAnswers.GuardIsHit`, `StatusQueries.LoadedAsQueued`.
- srmStatusOfBringOnlineRequest also replaces a status given to `buildSpecificResponse`
  (src/frontend/BolStatusRequest.cpp:232-240), exactly if the request is settled:
  `StatusProcessing.BuiltIsRight`.
- The status array has one slot per requested SURL, and more rows overrun it
  (src/frontend/GetStatusRequest.cpp:168-188); a SURL given twice at submission is enough:
  `StatusQueries.OverrunAfterSubmission`.
- srmBringOnline sends an incomplete statement for every dir option
  (src/frontend/BolRequest.cpp:257-259): `StoredRequests.DirOptionsAreNeverBroughtOnline`.
- Null tokens shrink the array of summaries without moving the others together
  (src/frontend/srmv2_GetRequestSummary.cpp:200-203): `RequestSummary.SummariesLost`. Only null
  tokens make the first query malformed (lines 159-172): `RequestSummary.GetRequestSummary`.
- A request of which some SURLs were not stored is summarised as SRM_INTERNAL_ERROR, because the
  stored number of files counts all SURLs: `RequestSummary.SummaryAfterSubmission`.
- Erasing the query form can glue a file name to the host
  (src/frontend/surl_normalizer.cc:33-38): `SurlNormalizer.NormalizeKeepsValid`.
- In the report, 0 stands for "no minimum yet", so that a real minimum of 0 can be forgotten
  (src/frontend/Monitoring.hpp:158-161): `Monitoring.SummaryExtremes`.
- Digesting a round without operations would bring its 0 extremes in; `endRound` avoids it
  (src/frontend/Monitor.hpp:314-324): `Monitors.MergeIsExact`.
- The log prefix has one character less room than the rest (src/frontend/srmlogit.cpp:165-173):
  `LogBuffer.LineIsTruncated`.
- `getConnection` reads through the iterator without testing for the end
  (src/frontend/DBConnectionPool.cpp:41-43): `ConnectionPool.DBConnectionPool.GetConnection`.

## Model

| member | source | states |
|---|---|---|
| `ThreadPool.InitialInv` | src/frontend/ThreadPool.hpp:99-125 | A freshly built pool satisfies the invariant. |
| `ThreadPool.StepKeepsNoLostWakeup` | src/frontend/ThreadPool.hpp:58-77 | Every step of every thread keeps it true that, while a worker sleeps before the pool is stopped, each queued task has a notified worker on its way, and, while a scheduling thread sleeps, each free slot has a notified one; the queue never exceeds its maximum. |
| `ThreadPool.StepKeepsConserved` | src/frontend/ThreadPool.hpp:58-77 | A push puts the task of the pushing caller behind the whole queue, a pop hands its worker the front of it, and no other step changes the queue; every step keeps: tasks pushed = tasks popped followed by the queue, and every copy of every task is accounted for: with its caller, queued, in a worker's hands, finished, or dropped after stop. |
| `ThreadPool.StepKeepsActiveCount` | src/frontend/ThreadPool.hpp:139-146 | `_activeThreads` stays equal to the number of workers inside a task. |
| `ThreadPool.StepKeepsInv` | src/frontend/ThreadPool.hpp:58-147 | All of the invariant together is kept by every step of any thread, with spurious wakeups, barging and interruption. |
| `ThreadPool.RunKeepsInv` | src/frontend/ThreadPool.hpp:58-152 | The invariant holds after every interleaving of any length. |
| `ThreadPool.ReachableIsSafe` | src/frontend/ThreadPool.hpp:58-152 | In every reachable state: the queue is at most its maximum long, the popped tasks followed by the queue are the pushed ones, each task is finished or dropped at most as often as popped, popped at most as often as pushed, and pushed at most as often as offered; the active count is the number of workers in a task and at most the number of threads; nothing is dropped before stop. |
| `ThreadPool.ReachableLosesNoWakeup` | src/frontend/ThreadPool.hpp:61-76 | In every reachable state: before stop, a worker that sleeps while the queue is not empty implies a notified worker, a caller that sleeps while there is room implies a notified caller, and with a positive maximum workers and callers never both sleep without a notified thread. |
| `ThreadPool.UnfinishedCanStep` | src/frontend/ThreadPool.hpp:58-147 | Deadlock freedom: in a pool in service (a worker, a positive maximum, not stopped), as long as a scheduled task is unfinished, some thread can take a step. |
| `ThreadPool.InternalStepUsesEffort` | src/frontend/ThreadPool.hpp:58-147 | Every step other than a new request, a spurious wakeup, stop or an interruption strictly reduces a measure of the remaining effort. |
| `ThreadPool.EveryRunDrains` | src/frontend/ThreadPool.hpp:58-147 | In a pool in service, every interleaving of internal steps is at most as long as the remaining effort, and one that cannot go on has finished every task exactly as often as it was scheduled: the multisets of finished and offered tasks are equal. |
| `ThreadPool.Pool.constructor` | src/frontend/ThreadPool.hpp:99-107 | The state of a new pool. |
| `ThreadPool.Pool.Schedule` | src/frontend/ThreadPool.hpp:191-193 | The step of the state machine taken by `schedule`. |
| `ThreadPool.Pool.PushTurn` | src/frontend/ThreadPool.hpp:70-77 | One evaluation of the loop condition of `push` is the step "push and notify" if there is room and "wait" otherwise: the caller's task goes behind the old queue and the caller returns, or the queue stays and the caller sleeps. |
| `ThreadPool.Pool.PopTurn` | src/frontend/ThreadPool.hpp:58-68 | One evaluation of the loop condition of `pop` is the step "pop and notify" with the front of the old queue, which the worker then holds, or "wait" on an empty queue. |
| `ThreadPool.Pool.LoopTurn` | src/frontend/ThreadPool.hpp:133-147 | The rest of the worker loop, one step each: after stop the worker drops its task and exits; otherwise it increments the counter, runs the task, decrements the counter, and the task is finished. |
| `TaskOrder.FirstInFirstOut` | src/frontend/ThreadPool.hpp:58-77 | For every interleaving, read off the labels of its steps alone: which tasks were offered, the order in which they were pushed (each push takes the task of its caller's last call of schedule), that the popped tasks are the oldest of these, one per pop, and that the others are queued behind them. |
| `TaskOrder.NextInLine` | src/frontend/ThreadPool.hpp:58-77 | After every interleaving, whoever pops next gets the oldest task pushed and not popped, and whoever pushes next puts the task of its own last call behind all others. |
| `TaskOrder.TasksEndAsTaken` | src/frontend/ThreadPool.hpp:133-147 | For every interleaving, read off the labels: each worker finishes the task that its last pop took, in the order of leaving, or drops it if it tests stop after that was set; exactly then, or when interrupted, it has exited; and the counter is the number of enter steps minus that of leave steps. |
| `TaskOrder.GoneForGood` | src/frontend/ThreadPool.hpp:135-137 | A worker that exited takes no further step. |
| `Database.Connection.StartTransaction` | src/db/storm_mysql_ifce.cpp:71-76 | BEGIN commits what an earlier transaction left open and drops its savepoints. |
| `Database.Connection.EndTransaction` | src/db/storm_mysql_ifce.cpp:78-83 | COMMIT makes the working tables the committed ones. |
| `Database.Connection.AbortTransaction` | src/db/storm_mysql_ifce.cpp:85-90 | ROLLBACK restores the committed tables; identifiers already handed out stay used. |
| `Database.Connection.SetSavepoint` | src/db/storm_mysql_ifce.cpp:92-98 | A savepoint replaces an older one of the same name. |
| `Database.Connection.RollbackToSavepoint` | src/db/storm_mysql_ifce.cpp:100-106 | Restores the tables of the savepoint of that name, or changes nothing. |
| `Database.Connection.Execute` | src/db/mysql_query.cpp:82-89 | A statement adds its row under the next identifier, or fails and changes no table. |
| `Database.InsertKeepsWellFormed` | src/db/mysql_query.cpp:82-89 | Every insertion whose references exist keeps identifiers increasing and references resolvable. |
| `Database.CountersMayAdvance` | src/db/mysql_query.cpp:82-89 | Gaps that rollbacks leave in the numbering do no harm. |
| `ConnectionPool.DBConnectionPool.constructor` | src/frontend/DBConnectionPool.cpp:21-24 | A new pool has no contexts. |
| `ConnectionPool.DBConnectionPool.LowerBound` | src/frontend/DBConnectionPool.cpp:41 | The first entry not below the thread. |
| `ConnectionPool.DBConnectionPool.GetConnection` | src/frontend/DBConnectionPool.cpp:34-57 | The calling thread gets the context it had, or a new one, and no other thread's context changes; except exactly if the iterator is at the end and what lies beyond reads as this thread: the source does not test for the end. |
| `ConnectionPool.OneToOne` | src/frontend/DBConnectionPool.cpp:34-57 | The same thread always has the same context, and different threads have different ones. |
| `Protocols.NothingRemoved` | src/frontend/ProtocolChecker.cpp:52-73 | Filtering keeps the list exactly if every requested protocol is supported. |
| `Protocols.EachOnItsOwn` | src/frontend/ProtocolChecker.cpp:52-73 | Filtering a list is filtering its parts one after the other: each protocol is kept or removed on its own, in place. |
| `Protocols.ProtocolChecker.CheckProtocols` | src/frontend/ProtocolChecker.cpp:31-50 | 0 exactly if filtering would remove nothing. |
| `Protocols.ProtocolChecker.RemoveUnsupportedProtocols` | src/frontend/ProtocolChecker.cpp:52-73 | The supported protocols in their order. |
| `Submission.FileRequest.constructor` | src/frontend/file_request.hpp:74-83 | A request as it is loaded: all SURLs queued, no token, no response. |
| `Submission.FileRequest.SetRequestToken` | src/frontend/file_request.hpp:119 | The token is kept escaped. |
| `Submission.FileRequest.SetGenericFailureSurls` | src/frontend/file_request.hpp:142-147 | All SURLs are marked FAILURE and are otherwise unchanged. |
| `Submission.FileRequest.FailRequest` | src/frontend/file_request.hpp:136-140 | The request and all its SURLs fail, with the given explanation. |
| `Submission.FileRequest.BuildResponse` | src/frontend/PtgRequest.cpp:90-158 | One entry per SURL, in order, with this SURL's own URL, status and explanation, and the token unless it was invalidated; the response is built once and then returned again. |
| `Submission.FileRequest.BuildSpecificResponse` | src/frontend/file_request.hpp:156-160 | The response with the given status and explanation. |
| `Submission.FileRequest.GiveUp` | src/frontend/PtgRequest.cpp:262-271 | A SURL with a failing statement is marked FAILURE, and the tables are as at its savepoint. |
| `Submission.FileRequest.StoreSurl` | src/frontend/PtgRequest.cpp:242-313 | One SURL: either all its rows are added, or none and it is marked FAILURE, decided by whether one of its own statements fails. |
| `Submission.FileRequest.StoreSurls` | src/frontend/PtgRequest.cpp:240-314 | All SURLs: each is marked by its own statements, and the tables hold exactly the linked rows of those not marked FAILURE. |
| `Submission.FileRequest.StoreProtocols` | src/frontend/PtgRequest.cpp:322-340 | Exactly one new row for each protocol whose statement does not fail; the row of protocol i is the one behind as many others as earlier statements succeeded. |
| `Submission.StoredProtocolsAre` | src/frontend/PtgRequest.cpp:322-340 | The protocol rows that a submission commits, by index: protocol i has its row exactly where the number of earlier successful statements says, and there are as many rows as successful statements. |
| `Submission.FileRequest.FinishInsertion` | src/frontend/PtgRequest.cpp:315-341 | Everything is rolled back if all SURLs failed; otherwise the protocols are added and all is committed. |
| `Submission.FileRequest.StoreFiles` | src/frontend/PtgRequest.cpp:238-341 | What is committed after the request row follows from the SURL statuses alone, for every pattern of failing statements. |
| `Submission.FileRequest.InsertRequest` | src/frontend/PtgRequest.cpp:225-341 | A failing first statement changes nothing and fails all SURLs; otherwise the outcome is as stated for the SURLs and protocols. |
| `Submission.FileRequest.InsertIntoDB` | src/frontend/PtpRequest.cpp:183-361 | For every initial database and every pattern of failing statements: nothing is committed, or exactly one request row with the type code of the kind and, for exactly the SURLs not marked FAILURE and in their order, a file row, its status row and its dir-option row with the fields of the dir option. |
| `Submission.OnePass` | src/frontend/PtgRequest.cpp:240-314 | One pass of the loop extends the outcome by one SURL, whatever its statements do. |
| `Submission.PassSucceeds` | src/frontend/PtgRequest.cpp:274-307 | A pass without failures adds the rows of one SURL. |
| `Submission.PassFails` | src/frontend/PtgRequest.cpp:262-272 | A pass with a failure leaves the tables as they were, despite the savepoint name shared by all SURLs. |
| `Submission.ThenSubmitted` | src/frontend/PtgRequest.cpp:315-341 | After the last pass, the number of failures decides between rollback and commit exactly as the statuses say. |
| `RequestProcessing.SubmitChecked` | src/frontend/filerequest_template.hpp:133-168 | The answer and the committed tables for a stored request, a database error, and a missing token. |
| `RequestProcessing.DropUnsupportedProtocols` | src/frontend/filerequest_template.hpp:90-132 | The request keeps its supported protocols; it is refused exactly if it asked for protocols and none is supported. |
| `RequestProcessing.CheckAndSubmit` | src/frontend/filerequest_template.hpp:88-168 | The protocol check followed by the insertion. |
| `RequestProcessing.ProcessFileRequest` | src/frontend/filerequest_template.hpp:44-175 | Every outcome path from the token to the response: no connection, lost connection, no supported protocol, database error, all SURLs failed, stored; and on all of them the answer agrees with what is committed, as above. |
| `RequestProcessing.RefuseProtocols` | src/frontend/filerequest_template.hpp:112-124 | The answer to a request none of whose protocols is supported. |
| `RequestProcessing.AnswerMatchesDatabase` | src/frontend/filerequest_template.hpp:133-168 | A submission that passed the protocol check: the response has one entry per SURL of the request, under its own URL. If the client is told SRM_REQUEST_QUEUED, the database gained one request row of this kind; for exactly the SURLs that the response itself reports as queued (at least one), in their order, a file row with its queued status row; and a row for each supported protocol whose statement succeeds, so for all of them if none fails. Every other SURL is reported as FAILURE with the explanation. With any other status the database is unchanged. |
| `RequestProcessing.QueuedMeansStored` | src/frontend/filerequest_template.hpp:133-168 | The status is SRM_REQUEST_QUEUED exactly if the database gained the request row. |
| `StoredRequests.SubmissionLeavesNoOrphans` | src/frontend/PtgRequest.cpp:242-341 | A submission leaves no status without file, file without status, unused or missing dir option, or row without request. |
| `StoredRequests.LinkedRows` | src/frontend/PtgRequest.cpp:274-307 | The added rows are those of the queued SURLs, in order. |
| `StoredRequests.StoredProtocolsBelong` | src/frontend/PtgRequest.cpp:322-340 | Protocol rows belong to the request and were asked for. |
| `StoredRequests.StoredProtocolsInOrder` | src/frontend/PtgRequest.cpp:322-340 | They are a subsequence of the accepted protocols. |
| `StoredRequests.AllProtocolsStored` | src/frontend/PtgRequest.cpp:322-340 | If no statement fails, the names in the new rows are exactly the accepted protocols. |
| `StoredRequests.LinkedDirOptions` | src/frontend/PtgRequest.cpp:249-271 | Each queued SURL has a file row that refers to a row with the fields of its dir option (the number of levels only if it is positive), or to none if it has no dir option or the request is srmPrepareToPut; and no bring-online SURL with a dir option is queued. |
| `StoredRequests.JoinAfterSubmission` | src/frontend/srmv2_GetRequestSummary.cpp:243-274 | The join read by later requests finds, for the new request, the stored SURLs in order, all queued, and for every other request what it found before. |
| `StoredRequests.IdentifiersAreFresh` | src/db/mysql_query.cpp:82-89 | In well-formed tables the next request identifier is unused and file identifiers are distinct, as the results on the join ask. |
| `StoredRequests.DirOptionsAreNeverBroughtOnline` | src/frontend/BolRequest.cpp:250-275 | Because the end of the dir-option statement goes to another stream, srmBringOnline stores nothing if every SURL has a dir option. |
| `StoredRequests.OutcomesWithoutFailures` | src/frontend/BolRequest.cpp:250-275 | If the database fails no statement, a SURL is queued exactly if it is not a bring-online SURL with a dir option. |
| `SqlString.FindFirstOf` | src/frontend/sql_string.hpp:36-38 | The first special character at or after a position. |
| `SqlString.EscapeSql` | src/frontend/sql_string.hpp:33-43 | The loop that inserts into the growing string terminates and yields the per-character escape. |
| `SqlString.EscapeIdentity` | src/frontend/sql_string.hpp:34 | Escaping changes nothing exactly for strings without backslash, quote, percent sign and double quote. |
| `SqlString.EscapeRoundTrip` | src/frontend/sql_string.hpp:33-43 | Removing the backslashes gives the string back, so escaping is injective. |
| `SqlString.WellEscapedIsImage` | src/frontend/sql_string.hpp:33-43 | The well-escaped strings are exactly the results of escaping. |
| `SqlString.QuotedClosesAtItsEnd` | src/frontend/FileStatusRequest.hpp:264-269 | The quoted literal of an escaped string closes at the quote that ends it. |
| `SqlString.ValidTokenNeedsNoEscape` | src/frontend/token_validator.cpp:15-25 | Escaping is the identity on every valid token. |
| `SqlString.TokenLanguage` | src/frontend/token_validator.cpp:15-25 | The valid tokens are exactly five groups of 8, 4, 4, 4 and 12 hexadecimal digits of either case, joined by hyphens. |
| `JoinedLists.SplitJoin` | src/frontend/file_request.hpp:96-111 | Splitting undoes joining exactly for non-empty lists without the separator in an item. |
| `JoinedLists.SurlsList` | src/frontend/file_request.hpp:96-111 | The loop joins the SURLs with single spaces. |
| `JoinedLists.SurlsListComesBack` | src/frontend/file_request.hpp:96-113 | The logged list splits at the spaces into exactly the SURLs of the request, as many as `getSurlsNumber` says, because no normalised SURL has white space. |
| `JoinedLists.FqansOneString` | src/frontend/Credentials.cpp:66-81 | The loop with the erased last character yields the escaped join of the escaped FQANs. |
| `JoinedLists.FqansComeBack` | src/frontend/Credentials.cpp:66-81 | Unescaping twice and splitting at # gives the FQANs back exactly if there is one and none holds a #. |
| `SurlNormalizer.RegexpLanguage` | src/frontend/surl_normalizer.cc:5-10 | The regular expression matches exactly "srm://", host characters, a slash, and no white space: its port and query groups are redundant. |
| `SurlNormalizer.HostCharacters` | src/frontend/surl_normalizer.cc:5-10 | The characters that make an accepted host are the letters, the digits, and . - [ ] : |
| `SurlNormalizer.PathCharacters` | src/frontend/surl_normalizer.cc:5-10 | The characters accepted in a path are all but the six of white space. |
| `SurlNormalizer.RemoveIsCollapse` | src/frontend/surl_normalizer.cc:12-16 | The replacement equals the closed form: a run of slashes becomes at most two after a colon or at the start, otherwise one. |
| `SurlNormalizer.CollapseKeepsNonSlashes` | src/frontend/surl_normalizer.cc:12-16 | All other characters stay, in order. |
| `SurlNormalizer.CollapseIsCanonical` | src/frontend/surl_normalizer.cc:12-16 | The result has a pair of slashes only after a colon or at the start. |
| `SurlNormalizer.CanonicalIsFixed` | src/frontend/surl_normalizer.cc:12-16 | A string in that form is not changed, so collapsing is idempotent. |
| `SurlNormalizer.CollapseKeepsValid` | src/frontend/surl_normalizer.cc:31 | Collapsing keeps a valid SURL valid and leaves scheme and host alone. |
| `SurlNormalizer.NormalizedIsCanonical` | src/frontend/surl_normalizer.cc:18-39 | Whatever is erased, the result is canonical and has no white space. |
| `SurlNormalizer.NormalizeFixedPoints` | src/frontend/surl_normalizer.cc:18-39 | A string normalises to itself exactly if it is valid, canonical and free of the query pattern. |
| `SurlNormalizer.NormalizeAgain` | src/frontend/surl_normalizer.cc:18-39 | Normalising twice is normalising once exactly if the first result is valid and free of the pattern. |
| `SurlNormalizer.NormalizeKeepsValid` | src/frontend/surl_normalizer.cc:33-38 | A valid SURL normalises to a valid one exactly if there is no pattern, or it lies beyond the host end, or what follows it completes the host. |
| `SurlNormalizer.NormalizeShortens` | src/frontend/surl_normalizer.cc:31-38 | Every SURL that normalising changes becomes shorter. |
| `SurlNormalizer.PatternErased` | src/frontend/surl_normalizer.cc:33-38 | A pattern right behind the host is erased, once. |
| `SurlNormalizer.PatternTwice` | src/frontend/surl_normalizer.cc:33-38 | Two of them: the result is valid and would be changed again. |
| `SurlNormalizer.NameGluedToHost` | src/frontend/surl_normalizer.cc:33-38 | A pattern right behind the host, followed by a name only, glues the name to the host. |
| `SurlNormalizer.NormalizeCanBreakValidity` | src/frontend/surl_normalizer.cc:33-38 | A concrete SURL for which that happens. |
| `FileStatuses.FileStatusRequest.LoadFromDB` | src/frontend/GetStatusRequest.cpp:71-139 | No row is "not found"; incomplete common fields are an error; a stored SURL that storm::Surl rejects is invalid_surl. |
| `FileStatuses.FileStatusRequest.LoadRows` | src/frontend/GetStatusRequest.cpp:89-139 | Each row is loaded under its SURL normalised and escaped once more (Surl.hpp:30-39); rows without a status are skipped; the first invalid SURL stops it. |
| `FileStatuses.FileStatusRequest.CheckSurl` | src/frontend/FileStatusRequest.hpp:239-253 | Whether some loaded row is about a SURL. |
| `FileStatuses.FileStatusRequest.FillFound` | src/frontend/BolStatusRequest.cpp:158-226 | The slots of the loaded rows, what srmStatusOfBringOnline updates, and its two counters; the array is overrun exactly if there are more rows than slots. |
| `FileStatuses.FileStatusRequest.AddMissingSurls` | src/frontend/GetStatusRequest.cpp:248-292 | The missing SURLs overwrite the slots from the start index on; it fails exactly if they do not fit. |
| `FileStatuses.FileStatusRequest.FillFiles` | src/frontend/PutStatusRequest.cpp:194-297 | The whole array, or how building it ends. |
| `FileStatuses.CountersDecide` | src/frontend/BolStatusRequest.cpp:191-208 | What the two counters say about all statuses together. |
| `FileStatuses.FileStatusRequest.Aggregate` | src/frontend/BolStatusRequest.cpp:232-240 | The counters give the request status of srmStatusOfBringOnline stated by the quantifiers; the other two requests keep theirs. |
| `FileStatuses.FileStatusRequest.BuildResponse` | src/frontend/BolStatusRequest.cpp:125-249 | The response, built once and then returned again; the status of srmStatusOfGetRequest and srmStatusOfPutRequest is the one that was loaded or given; a write beyond the array exactly if there are more rows than slots, logic_error exactly if the missing SURLs do not fit. |
| `FileStatuses.FileStatusRequest.BuildSpecificResponse` | src/frontend/FileStatusRequest.hpp:89-94 | The same with a given status and explanation, which srmStatusOfGetRequest and srmStatusOfPutRequest report as given. |
| `StatusAnswers.LoadedTurls` | src/frontend/GetStatusRequest.cpp:89-139 | What is loaded comes from the rows with a status, and each of these is loaded. |
| `StatusAnswers.RowCount` | src/frontend/GetStatusRequest.cpp:168-174 | For distinct requested SURLs and at most one row each, there are at most as many rows as slots, and as many exactly if each SURL has a row. |
| `StatusAnswers.MissingCount` | src/frontend/FileStatusRequest.hpp:234-253 | As many SURLs are missing as are requested and not loaded under. |
| `StatusAnswers.GuardIsHit` | src/frontend/GetStatusRequest.cpp:271-274 | The guard against overflow is hit exactly if at least two loaded rows are not about a further requested SURL, and fewer are loaded than requested. |
| `StatusAnswers.StartingBehindIsComplete` | src/frontend/GetStatusRequest.cpp:248-292 | Starting right behind the rows, the answer would be right exactly if every stored SURL is a fixed point of the normaliser (with the exception of the next row). |
| `StatusAnswers.AnswerIsComplete` | src/frontend/GetStatusRequest.cpp:250 | Starting one slot earlier, as the source does, every requested SURL is answered with its row or SRM_INVALID_PATH exactly if every stored SURL is a fixed point of the normaliser, and there is no row or each SURL has one; except that a row loaded under another SURL may say word for word what is said of a SURL without a row. |
| `StatusAnswers.ReliableWhateverIsSaid` | src/frontend/GetStatusRequest.cpp:250 | Without exception: rows of these SURLs are answered rightly whatever they say exactly under that condition. |
| `StatusAnswers.StableAnswers` | src/frontend/GetStatusRequest.cpp:250 | For fixed points without exception, and the guard against overflow is never hit. |
| `StatusAnswers.OtherSurlAnswered` | src/frontend/GetStatusRequest.cpp:95 | A stored SURL that is loaded as another one: the only slot is about a SURL nobody asked for. |
| `StatusAnswers.GuardHitByTwo` | src/frontend/GetStatusRequest.cpp:271-274 | Two such rows and a SURL without a row: addMissingSurls throws. |
| `StatusAnswers.WordForWord` | src/frontend/GetStatusRequest.cpp:248-292 | The exception occurs. |
| `StatusAnswers.FoundStatusLost` | src/frontend/GetStatusRequest.cpp:250 | Two SURLs and one row: its status is overwritten, and the last slot is null. |
| `StatusAnswers.UpdateCommutes` | src/frontend/BolStatusRequest.cpp:177-190 | What srmStatusOfBringOnline reports is what it would report for updated rows, so that these results apply to it. |
| `StatusAnswers.BringOnlineStatus` | src/frontend/BolStatusRequest.cpp:158-240 | The request status, whichever it is, is replaced exactly if each requested SURL has a row and none is queued or in progress off disk; then by SUCCESS if all files are online, FAILURE if none is, and PARTIAL_SUCCESS otherwise. |
| `StatusAnswers.AllFilesAnswered` | src/frontend/GetStatusRequest.cpp:168-245 | Without requested SURLs, the array has one slot for each row with a status, and says what the row says. |
| `StatusAnswers.BringOnlineStatusOfAll` | src/frontend/BolStatusRequest.cpp:158-240 | Without requested SURLs, the request status is replaced exactly if some row has a status and none is queued or in progress off disk. |
| `StatusProcessing.AnswerAtOnce` | src/frontend/StatusTemplate.hpp:35-58 | Without a row, every requested SURL is answered by SRM_INVALID_PATH, and the request status is the given one for each of the three requests. |
| `StatusProcessing.ProcessRequestStatus` | src/frontend/StatusTemplate.hpp:27-137 | Every outcome path: no connection, empty token, lost connection, failing query, no row, incomplete fields, invalid stored SURL, another user, and the answer built from the rows; for srmStatusOfGetRequest and srmStatusOfPutRequest its status is that of the first row. |
| `StatusProcessing.BuiltIsRight` | src/frontend/StatusTemplate.hpp:110-132 | Whatever the rows say, the request status in the answer of srmStatusOfGetRequest and srmStatusOfPutRequest is the loaded or given one, and srmStatusOfBringOnlineRequest replaces it exactly if the request is settled; and for rows that can be relied on there is an answer, which is complete. |
| `StatusProcessing.BuiltForAllFiles` | src/frontend/GetStatusRequest.cpp:168-245 | A request without SURLs always gets a response: exactly the rows with a status, each under the SURL it is loaded as, with its status and explanation. |
| `StatusQueries.QueryAfterSubmission` | src/frontend/GetStatusRequest.cpp:40-71 | Right after a submission the status query finds exactly the requested ones of the stored SURLs, in order, all queued. |
| `StatusQueries.LoadedAsQueued` | src/frontend/GetStatusRequest.cpp:89-139 | They can be loaded exactly if all are valid, and are loaded as SRM_REQUEST_QUEUED. |
| `StatusQueries.StoredButNotLoadable` | src/frontend/GetStatusRequest.cpp:95 | A SURL that is stored and cannot be loaded. |
| `StatusQueries.StoredIsStable` | src/frontend/Surl.hpp:30-39 | A stored SURL is a fixed point exactly if it is valid and no query pattern is left in it. |
| `StatusQueries.AnswerAfterSubmission` | src/frontend/GetStatusRequest.cpp:250 | Right after a submission the answer is right exactly if the requested SURLs that are stored are fixed points, and none or all of the requested ones are stored. |
| `StatusQueries.OverrunAfterSubmission` | src/frontend/GetStatusRequest.cpp:168-188 | The array is overrun exactly if more stored files are asked for than SURLs requested. |
| `StatusQueries.GivenTwice` | src/frontend/GetStatusRequest.cpp:168-188 | A SURL given twice to a submission and once to the status request overruns the array. |
| `RequestSummary.CountFiles` | src/frontend/srmv2_GetRequestSummary.cpp:280-304 | Completed, waiting and failed files are the multiplicities of the listed statuses and add up to all files. |
| `RequestSummary.CountsByCode` | src/frontend/srmv2_GetRequestSummary.cpp:286-303 | Which six statuses count as completed and which two as waiting, as multiplicities. |
| `RequestSummary.StatusTellsFound` | src/frontend/srmv2_GetRequestSummary.cpp:325-355 | The request status says whether all, some or none of the given tokens were found. |
| `RequestSummary.FindRow` | src/frontend/srmv2_GetRequestSummary.cpp:208-215 | The first row of a token. |
| `RequestSummary.SummariseToken` | src/frontend/srmv2_GetRequestSummary.cpp:199-322 | The slot of one token: the summary of its first row, or SRM_INVALID_REQUEST. |
| `RequestSummary.SummariseRow` | src/frontend/srmv2_GetRequestSummary.cpp:217-314 | The summary of a request: the type of each stored code (an unknown one is taken for PREPARE_TO_PUT), its status and the counts of the files of that type, or SRM_INTERNAL_ERROR exactly if the number of statuses differs from the stored number of files. |
| `RequestSummary.Summarise` | src/frontend/srmv2_GetRequestSummary.cpp:186-324 | One slot per token, in order; null tokens leave their slot null and take one off the size. |
| `RequestSummary.GetRequestSummary` | src/frontend/srmv2_GetRequestSummary.cpp:127-355 | Every outcome: refused tokens, only null tokens (a statement without condition, whose exception nothing catches), no row, and the summaries. |
| `RequestSummary.BugAnswer` | src/frontend/srmv2_GetRequestSummary.cpp:344-350 | The answer commented "cannot happen" is given exactly if a token was given and none equals the token of a selected row. |
| `RequestSummary.ExactSelectionHasNoBug` | src/frontend/srmv2_GetRequestSummary.cpp:344-350 | It is never given if the first query selects by exact equality and selects something. |
| `RequestSummary.SummariesLost` | src/frontend/srmv2_GetRequestSummary.cpp:200-203 | The client loses as many summaries at the end as it gets null slots before, and none exactly if all null tokens come last. |
| `RequestSummary.SummaryOutOfSight` | src/frontend/srmv2_GetRequestSummary.cpp:200-203 | A concrete pair of tokens for which a summary is lost. |
| `RequestSummary.SummaryAfterSubmission` | src/frontend/srmv2_GetRequestSummary.cpp:276-314 | For a request just submitted, whose files are in the tables of its own kind only, the summary has the type of that kind; all files are reported as waiting if every SURL was stored, and SRM_INTERNAL_ERROR is reported if some failed. |
| `Monitors.FiguresAreUnique` | src/frontend/Monitor.hpp:285-296 | The operations determine the figures. |
| `Monitors.MergeIsExact` | src/frontend/Monitor.hpp:314-342 | Merging gives the figures of all operations together, exactly if an empty round is merged only into figures that are empty too or span 0. |
| `Monitors.EmptyDigestSpoilsMinimum` | src/frontend/Monitor.hpp:314-324 | A concrete digest of an empty round that spoils the minimum. |
| `Monitors.Monitor.constructor` | src/frontend/Monitor.hpp:96-100 | A new monitor has seen nothing. |
| `Monitors.Monitor.UpdateTotalTime` | src/frontend/Monitor.hpp:361-366 | The sums of the times and of their squares. |
| `Monitors.Monitor.UpdateTimeLimits` | src/frontend/Monitor.hpp:368-373 | The extremes, before the operation is counted. |
| `Monitors.Monitor.RegisterSuccess` | src/frontend/Monitor.hpp:189-195 | The figures stay those of all operations, one success more. |
| `Monitors.Monitor.RegisterFailure` | src/frontend/Monitor.hpp:197-204 | One failure more. |
| `Monitors.Monitor.RegisterError` | src/frontend/Monitor.hpp:206-213 | One error more. |
| `Monitors.Monitor.DigestRound` | src/frontend/Monitor.hpp:249-254 | The round joins the past; all figures stay right exactly if it may be merged. |
| `Monitors.RoundsDoNotMatter` | src/frontend/Monitor.hpp:249-254 | For every sequence of operations and round ends, the aggregated figures merged with the current ones are those of all operations. |
| `Monitors.SameOperationsSameFigures` | src/frontend/Monitor.hpp:249-254 | Hence the round boundaries do not influence the overall figures. |
| `Monitors.SpreadIsPairSum` | src/frontend/Monitor.hpp:384-386 | count * sum of squares - total squared is the sum of the squared differences of all pairs. |
| `Monitors.GuardIsExact` | src/frontend/Monitor.hpp:387-390 | The guard before the root holds exactly if all times are equal. |
| `Monitors.AverageBetween` | src/frontend/Monitor.hpp:396-404 | The average lies between the extremes, and times the number of operations it is their total time. |
| `Monitors.DeviationIsRight` | src/frontend/Monitor.hpp:375-394 | The result is the population standard deviation about the average, zero exactly if all times are equal, and at most half the distance between the extremes. |
| `Monitoring.Monitoring.BuildRoundSummary` | src/frontend/Monitoring.hpp:146-172 | The accumulated figures of this type of the current round. |
| `Monitoring.Monitoring.BuildSummary` | src/frontend/Monitoring.hpp:174-200 | The accumulated aggregated figures of this type. |
| `Monitoring.Monitoring.EndRound` | src/frontend/Monitoring.hpp:256-267 | Every round joins its past and all figures stay right, because only updated monitors are digested. |
| `Monitoring.Monitoring.PrintSummary` | src/frontend/Monitoring.hpp:113-119 | The printed aggregate describes all operations so far, and is the previous aggregate plus the printed round. |
| `Monitoring.SummaryCounts` | src/frontend/Monitoring.hpp:146-200 | Counts and total time of a summary are those of all operations of its type. |
| `Monitoring.SummaryExtremes` | src/frontend/Monitoring.hpp:158-166 | With times of 0 or more the maximum is right, and the minimum exactly if no counted monitor has the minimum 0 or the last one has. |
| `Monitoring.PositiveTimesAreExact` | src/frontend/Monitoring.hpp:158-166 | With positive times both extremes are right. |
| `Monitoring.MinimumForgotten` | src/frontend/Monitoring.hpp:158-161 | Two monitors for which the minimum is wrong. |
| `Monitoring.NonEmptyAfterEndRound` | src/frontend/Monitoring.hpp:181-183 | After endRound the monitors counted are those with operations in the past. |
| `Monitoring.RoundIsAdded` | src/frontend/Monitoring.hpp:113-119 | Counts and times of past and round add up. |
| `LogBuffer.Snprintf` | src/frontend/srmlogit.cpp:271-281 | At most size - 1 characters and a NUL are written, and the full length is returned (ISO C, section 7.19.6.5). |
| `LogBuffer.Log.LogPrefix` | src/frontend/srmlogit.cpp:134-175 | The prefix, in one character less than the buffer has. |
| `LogBuffer.Log.Append` | src/frontend/srmlogit.cpp:365-376 | A piece is appended only if there is room, inside the buffer. |
| `LogBuffer.Log.Strlen` | src/frontend/srmlogit.cpp:292 | The length of the string in the buffer, which always holds a NUL. |
| `LogBuffer.Log.Write` | src/frontend/srmlogit.cpp:287-299 | The suffix is written exactly if the text is too long, and the line is what the buffer then holds. |
| `LogBuffer.Log.Srmlogit` | src/frontend/srmlogit.cpp:268-303 | The line of a prefix and a message, unless the level is too high. |
| `LogBuffer.Log.LoggingError` | src/frontend/srmlogit.cpp:229-265 | The line that reports null arguments. |
| `LogBuffer.Log.LogRequestWithSurls` | src/frontend/srmlogit.cpp:344-395 | Three pieces written one after the other give the same line as their concatenation, which is spelled out. |
| `LogBuffer.LineIsTruncated` | src/frontend/srmlogit.cpp:134-175 | Every line fits, and is the whole text or its first 1012 characters and the suffix, except exactly if it consists of a prefix of 1023 characters. |
| `LogBuffer.DecimalReadsBack` | src/frontend/srmlogit.cpp:365-370 | The number of SURLs is printed without leading zeros and reads back as the number. |
| `LogBuffer.LastCharacterLost` | src/frontend/srmlogit.cpp:165-173 | A concrete prefix that loses its last character. |

## Left out

- Interruption or exceptions inside a running task, and the thread_resource_error path of the pool constructor.
- SQL text, real MySQL behaviour on reconnect, failing COMMIT and SAVEPOINT: a failed statement changes nothing and transaction commands succeed.
- The columns of the tables that no property speaks of (DN, times, file types, spaces, transfer URLs, sizes), and with them the remainingPinTime values that the status requests fill with a flag.
- One file table and one status table stand for the three pairs of srmPrepareToGet, srmPrepareToPut and srmBringOnline.
- The doubling of quotes at submission (src/frontend/file_request.hpp:173-176) on top of the escaping, and MySQL's special reading of an escaped percent sign: a stored SURL is taken to be the normalised one, and a quoted literal to stand for the string that was escaped.
- The collation of the database: rows are selected by exact equality of tokens and SURLs, except in `RequestSummary`, where the selection is arbitrary.
- FileStatuses.FileStatusRequest.BuildResponse: when it throws or overruns the array, the half-built response that the source keeps is not modelled.
- FileStatuses.FileStatusRequest.LoadFromDB: the query is not modelled; its rows are a parameter.
- StatusProcessing.ProcessRequestStatus: what its callers do with an exception that leaves it is not modelled.
- Monitors.DeviationIsRight: times are exact reals, so that the rounding of floats is not modelled; the square root is a parameter with its defining property.
- Monitoring.Monitoring.PrintSummary: operations registered by other threads while a report is being composed are not modelled.
- ThreadPool.Pool.PushTurn: a wait is one step of a state machine; the loop around the wait is the repetition of such steps.
- The formatting of clock, thread label and level in log lines; log functions that write one piece like `srmlogit` or several like `srmLogRequestWithSurls`; the audit log.
- InstrumentedMonitor, whose first-writer-wins table only chooses between the register operations.
- The transaction that srmGetRequestSummary opens around its queries and does not close when it finds no row.
- srmCopy, srmLs and the other synchronous operations, XML-RPC, SOAP allocation, authorization, configuration.
