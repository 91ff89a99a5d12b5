/** The status requests that follow a submission (src/frontend/GetStatusRequest.cpp,
    PutStatusRequest.cpp, BolStatusRequest.cpp): what their query finds, loads and answers. */
module StatusQueries {
  import opened Database
  import opened FileStatuses
  import opened Sequences
  import opened SqlString
  import opened Srm
  import opened StatusAnswers
  import opened StoredRequests
  import opened Submission
  import opened SurlNormalizer
  import opened Wrappers

  /** A request without SURLs asks for all files; otherwise a file is wanted if its SURL is what one
      of the quoted literals stands for. */
  predicate IsWanted(url: string, wanted: seq<string>) { wanted == [] || Escape(url) in wanted }

  function Wanted(urls: seq<string>, wanted: seq<string>): seq<string> {
    if urls == [] then []
    else
      var before, last := Wanted(urls[..|urls| - 1], wanted), urls[|urls| - 1];
      if IsWanted(last, wanted) then before + [last] else before
  }

  function RowOf(q: QueueRow, dn: string, state: FileState): Row {
    Row(dn, Some(q.status), "", state.surl, Some(state.code), "")
  }

  function RowsFor(q: QueueRow, dn: string, states: seq<FileState>, wanted: seq<string>): seq<Row> {
    if states == [] then []
    else
      var before, last := RowsFor(q, dn, states[..|states| - 1], wanted), states[|states| - 1];
      if IsWanted(last.surl, wanted) then before + [RowOf(q, dn, last)] else before
  }

  function QueryRows(queue: seq<QueueRow>, t: Tables, token: string, dn: string, wanted: seq<string>): seq<Row> {
    if queue == [] then []
    else
      var before, last := QueryRows(queue[..|queue| - 1], t, token, dn, wanted), queue[|queue| - 1];
      if last.token == token then before + RowsFor(last, dn, RequestFiles(t, last.id), wanted) else before
  }

  /** The join of request_queue, files and statuses WHERE r_token = token AND the SURL is wanted. The
      explanations, which a submission leaves empty, are no part of the tables modelled. */
  function StatusQuery(t: Tables, token: string, dn: string, wanted: seq<string>): seq<Row> {
    QueryRows(t.queue, t, token, dn, wanted)
  }

  /** One queued row per URL. */
  function QueuedRows(q: QueueRow, dn: string, urls: seq<string>): (rows: seq<Row>)
    ensures |rows| == |urls|
    ensures forall i :: 0 <= i < |urls| ==> rows[i] == RowOf(q, dn, FileState(urls[i], REQUEST_QUEUED))
    ensures forall i :: 0 <= i < |urls| ==>
      && rows[i].surl == urls[i] && rows[i].code == Some(REQUEST_QUEUED) && rows[i].explanation == ""
      && rows[i].clientDn == dn && rows[i].requestStatus == Some(q.status)
  {
    seq(|urls|, i requires 0 <= i < |urls| => RowOf(q, dn, FileState(urls[i], REQUEST_QUEUED)))
  }

  lemma {:induction false} RowsOfQueued(q: QueueRow, dn: string, urls: seq<string>, wanted: seq<string>)
    ensures RowsFor(q, dn, QueuedStates(urls), wanted) == QueuedRows(q, dn, Wanted(urls, wanted))
  {
    if urls != [] {
      var before, last := urls[..|urls| - 1], urls[|urls| - 1];
      RowsOfQueued(q, dn, before, wanted);
      ConcatParts(QueuedStates(before), [FileState(last, REQUEST_QUEUED)]);
      hide IsWanted;
    }
  }

  lemma {:induction false} OtherTokens(queue: seq<QueueRow>, t: Tables, token: string, dn: string, wanted: seq<string>)
    requires forall q :: q in queue ==> q.token != token
    ensures QueryRows(queue, t, token, dn, wanted) == []
  {
    if queue != [] {
      OtherTokens(queue[..|queue| - 1], t, token, dn, wanted);
    }
  }

  /** A submission that stored something, under a token that no earlier request has. */
  ghost predicate JustStored(base: Tables, ids: Ids, committed: Tables, later: Ids, kind: Kind, surls: seq<Surl>,
                             row: QueueRow, protocols: seq<ProtocolRow>)
  {
    && Stored(base, committed, [row], kind, surls, row.id, protocols) && row.id == ids.queue
    && NoOrphans(base) && WellFormed(base, ids) && WellFormed(committed, later)
    && forall q :: q in base.queue ==> q.token != row.token
  }

  /** The query finds exactly the wanted ones of the stored SURLs, in order, all queued. */
  lemma QueryAfterSubmission(base: Tables, ids: Ids, committed: Tables, later: Ids, kind: Kind, surls: seq<Surl>,
                             row: QueueRow, protocols: seq<ProtocolRow>, dn: string, wanted: seq<string>)
    requires JustStored(base, ids, committed, later, kind, surls, row, protocols)
    ensures StatusQuery(committed, row.token, dn, wanted) == QueuedRows(row, dn, Wanted(QueuedUrls(surls), wanted))
  {
    hide WellFormed, NoOrphans, DistinctIds, Linked, RequestFiles, QueuedUrls;
    IdentifiersAreFresh(base, ids, committed, later);
    JoinAfterSubmission(kind, surls, row, base, committed, protocols, row.id);
    OtherTokens(base.queue, committed, row.token, dn, wanted);
    ConcatParts(base.queue, [row]);
    RowsOfQueued(row, dn, QueuedUrls(surls), wanted);
  }

  // ----- what is loaded and answered -----

  predicate AllValid(urls: seq<string>) { forall i :: 0 <= i < |urls| ==> Valid(urls[i]) }

  function QueuedTurls(urls: seq<string>): (turls: seq<Turl>)
    requires AllValid(urls)
    ensures |turls| == |urls|
  {
    seq(|urls|, i requires 0 <= i < |urls| => Turl(Kept(urls[i]), REQUEST_QUEUED, ""))
  }

  /** The rows can be loaded exactly if all their SURLs are valid; they are then loaded as queued,
      under the SURLs that storm::Surl makes of them. */
  lemma {:induction false} LoadedAsQueued(q: QueueRow, dn: string, urls: seq<string>)
    ensures Loadable(QueuedRows(q, dn, urls)) <==> AllValid(urls)
    ensures AllValid(urls) ==> TurlsOf(QueuedRows(q, dn, urls)) == QueuedTurls(urls)
  {
    hide Valid, Kept;
    var rows := QueuedRows(q, dn, urls);
    if urls != [] && AllValid(urls) {
      var m := |urls| - 1;
      LoadedAsQueued(q, dn, urls[..m]);
      assert rows[..m] == QueuedRows(q, dn, urls[..m]);
    }
  }

  /** A SURL that was stored and cannot be loaded: its normal form is not valid. */
  lemma StoredButNotLoadable(q: QueueRow, dn: string)
    ensures var surl, stored := SCHEME + ("h" + (QUERY_PATTERN + "x")), SCHEME + ("h" + "x");
      Normalize(surl) == Success(stored) && !Loadable(QueuedRows(q, dn, [stored]))
  {
    var stored := SCHEME + ("h" + "x");
    NormalizeCanBreakValidity();
    hide Valid, Normalize;
    assert QueuedRows(q, dn, [stored])[0].surl == stored;
  }

  /** A stored SURL is one that was normalised. It can be loaded if it is still valid, and is then
      stable exactly if no query pattern is left in it. */
  lemma StoredIsStable(surl: string, row: Row)
    requires Valid(surl) && row.surl == Normalize(surl).value
    ensures Stable(row) <==> Valid(row.surl) && Find(row.surl, QUERY_PATTERN) == -1
  {
    NormalizeAgain(surl);
  }

  predicate DistinctUrls(urls: seq<string>) { forall i, j :: 0 <= i < j < |urls| ==> urls[i] != urls[j] }

  /** Right after a submission whose stored SURLs are distinct, a status request is answered rightly
      exactly if those that it asks for are stable, and none of the requested SURLs is stored or all
      of them are. */
  lemma AnswerAfterSubmission(q: QueueRow, dn: string, urls: seq<string>, wanted: seq<string>)
    requires wanted != [] && DistinctSurls(wanted) && DistinctUrls(Wanted(urls, wanted))
    requires AllValid(Wanted(urls, wanted))
    ensures var asked := Wanted(urls, wanted); var rows := QueuedRows(q, dn, asked);
      && Loadable(rows)
      && (Answered(wanted, rows)
          <==> (forall u :: u in asked ==> Normalize(u) == Success(u))
               && (asked == [] || forall w :: w in wanted ==> exists u :: u in asked && Escape(u) == w))
  {
    var asked := Wanted(urls, wanted);
    var rows := QueuedRows(q, dn, asked);
    LoadedAsQueued(q, dn, asked);
    AllAreWanted(urls, wanted);
    hide Answered, Valid, Normalize, Escape, Wanted;
    assert forall i :: 0 <= i < |asked| ==> asked[i] in asked && IsWanted(asked[i], wanted);
    assert Asked(wanted, rows);
    AnswerIsComplete(wanted, rows);
    ReliableQueued(q, dn, asked, wanted);
  }

  lemma {:induction false} AllAreWanted(urls: seq<string>, wanted: seq<string>)
    ensures forall u :: u in Wanted(urls, wanted) <==> u in urls && IsWanted(u, wanted)
  {
    if urls != [] {
      AllAreWanted(urls[..|urls| - 1], wanted);
      assert urls == urls[..|urls| - 1] + [urls[|urls| - 1]];
      hide IsWanted;
    }
  }

  lemma ReliableQueued(q: QueueRow, dn: string, asked: seq<string>, wanted: seq<string>)
    ensures Reliable(wanted, QueuedRows(q, dn, asked))
       <==> (forall u :: u in asked ==> Normalize(u) == Success(u))
            && (asked == [] || forall w :: w in wanted ==> exists u :: u in asked && Escape(u) == w)
  {
    var rows := QueuedRows(q, dn, asked);
    StableQueued(q, dn, asked);
    assert (forall i :: 0 <= i < |rows| ==> rows[i].code.None?) <==> asked == [] by {
      assert asked != [] ==> rows[0].code.Some?;
    }
    hide QueuedRows, AllStable, HasRow, Normalize, Escape;
    forall w ensures HasRow(rows, w) <==> exists u :: u in asked && Escape(u) == w {
      QueuedHasRow(q, dn, asked, w);
    }
  }

  lemma StableQueued(q: QueueRow, dn: string, asked: seq<string>)
    ensures AllStable(QueuedRows(q, dn, asked)) <==> forall u :: u in asked ==> Normalize(u) == Success(u)
  {
    hide Normalize;
    var rows := QueuedRows(q, dn, asked);
    assert forall i :: 0 <= i < |asked| ==> asked[i] in asked && rows[i].surl == asked[i] && rows[i].code.Some?;
    if AllStable(rows) {
      forall u | u in asked ensures Normalize(u) == Success(u) {
        var i :| 0 <= i < |asked| && asked[i] == u;
        assert Stable(rows[i]);
      }
    }
  }

  lemma QueuedHasRow(q: QueueRow, dn: string, asked: seq<string>, w: string)
    ensures HasRow(QueuedRows(q, dn, asked), w) <==> exists u :: u in asked && Escape(u) == w
  {
    hide Escape;
    var rows := QueuedRows(q, dn, asked);
    if u :| u in asked && Escape(u) == w {
      var i :| 0 <= i < |asked| && asked[i] == u;
      assert Tells(rows[i], w);
    }
    if i :| 0 <= i < |rows| && Tells(rows[i], w) {
      assert asked[i] in asked;
    }
  }

  /** The array is overrun exactly if more stored files are asked for than SURLs are requested. */
  lemma OverrunAfterSubmission(q: QueueRow, dn: string, urls: seq<string>, wanted: seq<string>)
    requires AllValid(Wanted(urls, wanted))
    ensures var rows := QueuedRows(q, dn, Wanted(urls, wanted));
      && Loadable(rows)
      && (Outcome(wanted, TurlsOf(rows)) == Some(Overrun) <==> wanted != [] && |Wanted(urls, wanted)| > |wanted|)
  {
    LoadedAsQueued(q, dn, Wanted(urls, wanted));
    hide Valid, TurlsOf, Wanted;
  }

  /** A SURL given twice is stored twice; asking for it once overruns the array. */
  lemma GivenTwice(base: Tables, ids: Ids, committed: Tables, later: Ids, kind: Kind, surl: Surl, now: seq<Surl>,
                   row: QueueRow, asked: seq<string>, n: nat, fails: nat -> bool, dn: string)
    requires Submitted(kind, [surl, surl], now, asked, n, fails, row, base, committed) && forall j :: !fails(j)
    requires surl.status == REQUEST_QUEUED && !(kind.BoL? && surl.dirOption.Some?) && Valid(surl.url)
    requires row.id == ids.queue && NoOrphans(base) && WellFormed(base, ids) && WellFormed(committed, later)
    requires forall q :: q in base.queue ==> q.token != row.token
    ensures var rows := StatusQuery(committed, row.token, dn, [Escape(surl.url)]);
      Loadable(rows) && Outcome([Escape(surl.url)], TurlsOf(rows)) == Some(Overrun)
  {
    var protocols := StoredProtocols(asked, row.id, ClockAt(kind, [surl, surl], 2, n, fails), fails);
    TwiceStored(base, ids, committed, later, kind, surl, now, row, asked, n, fails);
    hide WellFormed, NoOrphans, Submitted, JustStored, Loadable, TurlsOf, StatusQuery, Outcome, Escape, QueuedUrls;
    TwiceLoaded(base, ids, committed, later, kind, surl.url, now, row, protocols, dn);
  }

  lemma TwiceStored(base: Tables, ids: Ids, committed: Tables, later: Ids, kind: Kind, surl: Surl, now: seq<Surl>,
                    row: QueueRow, asked: seq<string>, n: nat, fails: nat -> bool)
    requires Submitted(kind, [surl, surl], now, asked, n, fails, row, base, committed) && forall j :: !fails(j)
    requires surl.status == REQUEST_QUEUED && !(kind.BoL? && surl.dirOption.Some?)
    requires row.id == ids.queue && NoOrphans(base) && WellFormed(base, ids) && WellFormed(committed, later)
    requires forall q :: q in base.queue ==> q.token != row.token
    ensures JustStored(base, ids, committed, later, kind, now, row,
                       StoredProtocols(asked, row.id, ClockAt(kind, [surl, surl], 2, n, fails), fails))
    ensures QueuedUrls(now) == [surl.url, surl.url]
  {
    hide WellFormed, NoOrphans, Stored, Marked, AllFailed, StoredProtocols, ClockAt, QueuedUrls;
    BothQueued(kind, surl, now, n, fails);
  }

  lemma TwiceLoaded(base: Tables, ids: Ids, committed: Tables, later: Ids, kind: Kind, url: string, now: seq<Surl>,
                    row: QueueRow, protocols: seq<ProtocolRow>, dn: string)
    requires JustStored(base, ids, committed, later, kind, now, row, protocols)
    requires QueuedUrls(now) == [url, url] && Valid(url)
    ensures var rows := StatusQuery(committed, row.token, dn, [Escape(url)]);
      Loadable(rows) && Outcome([Escape(url)], TurlsOf(rows)) == Some(Overrun)
  {
    hide JustStored, TurlsOf, StatusQuery, Outcome, QueuedUrls, Valid, Escape;
    QueryAfterSubmission(base, ids, committed, later, kind, now, row, protocols, dn, [Escape(url)]);
    TwiceWanted(url);
    OverrunAfterSubmission(row, dn, [url, url], [Escape(url)]);
  }

  lemma BothQueued(kind: Kind, surl: Surl, now: seq<Surl>, n: nat, fails: nat -> bool)
    requires Marked(kind, [surl, surl], now, 2, n, fails) && forall j :: !fails(j)
    requires surl.status == REQUEST_QUEUED && !(kind.BoL? && surl.dirOption.Some?)
    ensures !AllFailed(now) && QueuedUrls(now) == [surl.url, surl.url]
  {
    assert now[0] == OutcomeAt(kind, [surl, surl], 0, n, fails) == surl;
    assert now[1] == OutcomeAt(kind, [surl, surl], 1, n, fails) == surl;
    assert now == [surl, surl];
    assert now[..1] == [surl] && [surl][..0] == [];
    assert now[0] in now;
  }

  lemma TwiceWanted(url: string)
    ensures Wanted([url, url], [Escape(url)]) == [url, url]
  {
    hide Escape;
    assert [url, url][..1] == [url] && [url][..0] == [];
    assert [Escape(url)][0] == Escape(url) && IsWanted(url, [Escape(url)]);
    assert Wanted([url], [Escape(url)]) == [url];
  }
}
