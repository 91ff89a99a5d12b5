/** What the answer to a status request says about the rows it was built from (the same sources as
    FileStatuses): which SURLs it answers, and when that is what the database knows about them. */
module StatusAnswers {
  import opened FileStatuses
  import opened SqlString
  import opened Srm
  import opened Submission
  import opened SurlNormalizer
  import opened Wrappers

  // ----- rows and requested SURLs -----

  predicate DistinctSurls(surls: seq<string>) { forall i, j :: 0 <= i < j < |surls| ==> surls[i] != surls[j] }

  predicate OneRowEach(rows: seq<Row>) { forall i, j :: 0 <= i < j < |rows| ==> rows[i].surl != rows[j].surl }

  /** The query selects the rows whose stored SURL is what a quoted literal of the request stands for. */
  predicate Selected(surls: seq<string>, rows: seq<Row>) {
    forall i :: 0 <= i < |rows| ==> Escape(rows[i].surl) in surls
  }

  /** Distinct requested SURLs, at most one row for each, and no row that storm::Surl rejects. */
  predicate Asked(surls: seq<string>, rows: seq<Row>) {
    surls != [] && DistinctSurls(surls) && OneRowEach(rows) && Selected(surls, rows) && Loadable(rows)
  }

  /** The row has a status and belongs to this requested SURL. */
  predicate Tells(row: Row, surl: string) { row.code.Some? && Escape(row.surl) == surl }

  predicate HasRow(rows: seq<Row>, surl: string) { exists i :: 0 <= i < |rows| && Tells(rows[i], surl) }

  /** The stored SURL is not changed by being normalised once more. */
  predicate Stable(row: Row) { Normalize(row.surl) == Success(row.surl) }

  predicate AllStable(rows: seq<Row>) { forall i :: 0 <= i < |rows| && rows[i].code.Some? ==> Stable(rows[i]) }

  /** The slot answers for the SURL: with its row if there is one, else with SRM_INVALID_PATH. */
  predicate RightSlot(slot: Option<FileStatus>, surl: string, rows: seq<Row>) {
    && slot.Some?
    && if HasRow(rows, surl)
       then exists i :: 0 <= i < |rows| && Tells(rows[i], surl)
                        && slot.value == FileStatus(surl, rows[i].code.value, rows[i].explanation)
       else slot.value == FileStatus(surl, INVALID_PATH, "No information about this SURL")
  }

  predicate SomeSlotRight(files: seq<Option<FileStatus>>, surl: string, rows: seq<Row>) {
    exists i :: 0 <= i < |files| && RightSlot(files[i], surl, rows)
  }

  /** One non-null slot per requested SURL, with the right answer. */
  predicate Complete(files: seq<Option<FileStatus>>, surls: seq<string>, rows: seq<Row>) {
    && |files| == |surls|
    && (forall i :: 0 <= i < |files| ==> files[i].Some?)
    && (forall s :: s in surls ==> SomeSlotRight(files, s, rows))
  }

  // ----- what is loaded -----

  predicate Told(turl: Turl, rows: seq<Row>)
    requires Loadable(rows)
  {
    exists i :: 0 <= i < |rows| && rows[i].code.Some? && turl == TurlOf(rows[i])
  }

  lemma ToldLast(turl: Turl, rows: seq<Row>)
    requires Loadable(rows) && rows != []
    ensures var m := |rows| - 1;
      Told(turl, rows) <==> Told(turl, rows[..m]) || (rows[m].code.Some? && turl == TurlOf(rows[m]))
  {
    hide Valid, Kept, TurlOf;
    var m := |rows| - 1;
    assert forall i :: 0 <= i < m ==> rows[..m][i] == rows[i];
  }

  /** What is loaded comes from the rows with a status, and each of these is loaded. */
  lemma {:induction false} LoadedTurls(rows: seq<Row>)
    requires Loadable(rows)
    ensures forall t :: t in TurlsOf(rows) <==> Told(t, rows)
  {
    if rows != [] {
      var m := |rows| - 1;
      LoadedTurls(rows[..m]);
      hide Loadable, Told, TurlOf;
      forall t ensures t in TurlsOf(rows) <==> Told(t, rows) {
        ToldLast(t, rows);
      }
    }
  }

  /** The requested SURLs that have a row with a status. */
  function Answerable(rows: seq<Row>): set<string> {
    if rows == [] then {}
    else
      var last, before := rows[|rows| - 1], Answerable(rows[..|rows| - 1]);
      if last.code.Some? then before + {Escape(last.surl)} else before
  }

  lemma HasRowLast(rows: seq<Row>, surl: string)
    requires rows != []
    ensures HasRow(rows, surl) <==> HasRow(rows[..|rows| - 1], surl) || Tells(rows[|rows| - 1], surl)
  {
    hide Tells;
    assert forall i :: 0 <= i < |rows| - 1 ==> rows[..|rows| - 1][i] == rows[i];
  }

  lemma {:induction false} AnswerableHas(rows: seq<Row>, surl: string)
    ensures surl in Answerable(rows) <==> HasRow(rows, surl)
  {
    if rows != [] {
      hide HasRow;
      HasRowLast(rows, surl);
      AnswerableHas(rows[..|rows| - 1], surl);
    }
  }

  lemma {:induction false} AnswerableCount(rows: seq<Row>)
    requires Loadable(rows) && OneRowEach(rows)
    ensures |Answerable(rows)| == |TurlsOf(rows)|
  {
    if rows != [] {
      var m := |rows| - 1;
      AnswerableCount(rows[..m]);
      LastIsNew(rows);
      hide Loadable, OneRowEach, Escape;
    }
  }

  lemma LastIsNew(rows: seq<Row>)
    requires OneRowEach(rows) && rows != []
    ensures Escape(rows[|rows| - 1].surl) !in Answerable(rows[..|rows| - 1])
  {
    var m := |rows| - 1;
    AnswerableHas(rows[..m], Escape(rows[m].surl));
    hide Escape;
    if i :| 0 <= i < m && Tells(rows[..m][i], Escape(rows[m].surl)) {
      EscapeRoundTrip(rows[i].surl);
      EscapeRoundTrip(rows[m].surl);
    }
  }

  function Elements(surls: seq<string>): set<string> { set s | s in surls }

  lemma {:induction false} DistinctSize(surls: seq<string>)
    requires DistinctSurls(surls)
    ensures |Elements(surls)| == |surls|
  {
    if surls != [] {
      var m := |surls| - 1;
      DistinctSize(surls[..m]);
      assert Elements(surls) == Elements(surls[..m]) + {surls[m]};
    }
  }

  /** There are at most as many rows as requested SURLs, and as many exactly if each SURL has one. */
  lemma RowCount(surls: seq<string>, rows: seq<Row>)
    requires Asked(surls, rows)
    ensures |TurlsOf(rows)| <= |surls|
    ensures |TurlsOf(rows)| == |surls| <==> forall s :: s in surls ==> HasRow(rows, s)
  {
    AnswerableCount(rows);
    DistinctSize(surls);
    hide Loadable, TurlsOf, DistinctSurls, OneRowEach, Escape, Answerable;
    forall s ensures s in Answerable(rows) <==> HasRow(rows, s) {
      AnswerableHas(rows, s);
    }
    assert Answerable(rows) <= Elements(surls);
    SubsetSize(Answerable(rows), Elements(surls));
  }

  lemma SubsetSize(a: set<string>, b: set<string>)
    requires a <= b
    ensures |a| <= |b| && (|a| == |b| <==> a == b)
  {
    assert |b - a| == |b| - |a|;
    assert b == a + (b - a);
  }

  // ----- when the missing SURLs fit -----

  /** The requested SURLs that some loaded row is about. */
  function Hits(surls: seq<string>, turls: seq<Turl>): set<string> { set s | s in surls && Named(turls, s) }

  lemma {:induction false} MissingHas(surls: seq<string>, turls: seq<Turl>)
    ensures forall s :: s in Missing(surls, turls) <==> s in surls && !Named(turls, s)
    ensures DistinctSurls(surls) ==> DistinctSurls(Missing(surls, turls))
  {
    if surls != [] {
      var m := |surls| - 1;
      MissingHas(surls[..m], turls);
      assert surls == surls[..m] + [surls[m]];
      hide Named;
      assert DistinctSurls(surls) ==> surls[m] !in surls[..m];
    }
  }

  lemma MissingCount(surls: seq<string>, turls: seq<Turl>)
    requires DistinctSurls(surls)
    ensures |Missing(surls, turls)| == |surls| - |Hits(surls, turls)|
  {
    MissingHas(surls, turls);
    DistinctSize(surls);
    DistinctSize(Missing(surls, turls));
    hide Named, Missing;
    assert Elements(Missing(surls, turls)) == Elements(surls) - Hits(surls, turls);
    assert Hits(surls, turls) <= Elements(surls);
  }

  /** The guard against overflow is hit exactly if at least two of the loaded rows are not about a
      further requested SURL, and fewer are loaded than requested. */
  lemma GuardIsHit(surls: seq<string>, turls: seq<Turl>)
    requires DistinctSurls(surls)
    ensures Outcome(surls, turls) == Some(StatusError.LogicError)
       <==> |Hits(surls, turls)| + 2 <= |turls| < |surls|
  {
    MissingCount(surls, turls);
  }

  // ----- stable rows -----

  /** Stable rows are loaded under their own SURL. */
  lemma StableNames(rows: seq<Row>)
    requires Loadable(rows) && AllStable(rows)
    ensures forall s :: Named(TurlsOf(rows), s) <==> HasRow(rows, s)
  {
    LoadedTurls(rows);
    var turls := TurlsOf(rows);
    hide TurlsOf, Normalize, Escape, Valid;
    forall s ensures Named(turls, s) <==> HasRow(rows, s) {
      if k :| 0 <= k < |turls| && turls[k].surl == s {
        assert turls[k] in turls;
      }
      if i :| 0 <= i < |rows| && Tells(rows[i], s) {
        assert TurlOf(rows[i]) in turls;
      }
    }
  }

  lemma StableHits(surls: seq<string>, rows: seq<Row>)
    requires Asked(surls, rows) && AllStable(rows)
    ensures |Missing(surls, TurlsOf(rows))| == |surls| - |TurlsOf(rows)|
  {
    StableNames(rows);
    AnswerableCount(rows);
    MissingCount(surls, TurlsOf(rows));
    hide TurlsOf, Named, Loadable, AllStable, DistinctSurls, OneRowEach, Escape, Missing, Answerable;
    forall s ensures s in Answerable(rows) <==> HasRow(rows, s) {
      AnswerableHas(rows, s);
    }
    assert Hits(surls, TurlsOf(rows)) == Answerable(rows);
  }

  lemma FilesAt(surls: seq<string>, turls: seq<Turl>, start: nat)
    requires |turls| <= |surls| && surls != [] && start <= |turls|
    requires |turls| < |surls| ==> start + |Missing(surls, turls)| <= |surls|
    requires |turls| == |surls| ==> Missing(surls, turls) == []
    ensures var files := FilesFrom(surls, turls, start); var missing := Missing(surls, turls);
      && |files| == |surls|
      && (forall i :: 0 <= i < start ==> files[i] == Some(Report(turls[i])))
      && (forall i :: 0 <= i < |missing| ==> files[start + i] == Some(NoInformation(missing[i])))
      && (forall i :: start + |missing| <= i < |surls| ==>
            files[i] == if i < |turls| then Some(Report(turls[i])) else None)
      && (start + |missing| == |surls| ==> forall i :: 0 <= i < |surls| ==> files[i].Some?)
  {
    hide Missing;
  }

  lemma RowAnswers(rows: seq<Row>, files: seq<Option<FileStatus>>, s: string)
    requires Loadable(rows) && AllStable(rows) && HasRow(rows, s) && |TurlsOf(rows)| <= |files|
    requires forall k :: 0 <= k < |TurlsOf(rows)| ==> files[k] == Some(Report(TurlsOf(rows)[k]))
    ensures SomeSlotRight(files, s, rows)
  {
    LoadedTurls(rows);
    var i :| 0 <= i < |rows| && Tells(rows[i], s);
    assert Told(TurlOf(rows[i]), rows);
    var k :| 0 <= k < |TurlsOf(rows)| && TurlsOf(rows)[k] == TurlOf(rows[i]);
    hide TurlsOf, Normalize, Escape, Valid;
    assert RightSlot(files[k], s, rows);
  }

  lemma MissingAnswers(surls: seq<string>, rows: seq<Row>, turls: seq<Turl>, files: seq<Option<FileStatus>>,
                       start: nat, s: string)
    requires s in surls && !HasRow(rows, s) && !Named(turls, s) && start + |Missing(surls, turls)| <= |files|
    requires forall i :: 0 <= i < |Missing(surls, turls)| ==>
      files[start + i] == Some(NoInformation(Missing(surls, turls)[i]))
    ensures SomeSlotRight(files, s, rows)
  {
    MissingHas(surls, turls);
    var i :| 0 <= i < |Missing(surls, turls)| && Missing(surls, turls)[i] == s;
    hide Missing, Named, HasRow;
    assert RightSlot(files[start + i], s, rows);
  }

  lemma StableSlot(surls: seq<string>, rows: seq<Row>, s: string)
    requires Asked(surls, rows) && AllStable(rows) && s in surls
    requires |TurlsOf(rows)| + |Missing(surls, TurlsOf(rows))| == |surls|
    ensures SomeSlotRight(FilesFrom(surls, TurlsOf(rows), |TurlsOf(rows)|), s, rows)
  {
    StableNames(rows);
    hide TurlsOf, Missing, Named, FilesFrom, HasRow, SomeSlotRight, DistinctSurls, OneRowEach, Selected, AllStable;
    var turls := TurlsOf(rows);
    FilesAt(surls, turls, |turls|);
    var files := FilesFrom(surls, turls, |turls|);
    if HasRow(rows, s) {
      RowAnswers(rows, files, s);
    } else {
      MissingAnswers(surls, rows, turls, files, |turls|, s);
    }
  }

  /** With stable rows, starting right behind them completes the answer. */
  lemma StableIsComplete(surls: seq<string>, rows: seq<Row>)
    requires Asked(surls, rows) && AllStable(rows)
    ensures |TurlsOf(rows)| + |Missing(surls, TurlsOf(rows))| == |surls|
    ensures Complete(FilesFrom(surls, TurlsOf(rows), |TurlsOf(rows)|), surls, rows)
  {
    StableHits(surls, rows);
    hide TurlsOf, Missing, FilesFrom, SomeSlotRight, DistinctSurls, OneRowEach, Selected, AllStable;
    FilesAt(surls, TurlsOf(rows), |TurlsOf(rows)|);
    forall s | s in surls ensures SomeSlotRight(FilesFrom(surls, TurlsOf(rows), |TurlsOf(rows)|), s, rows) {
      StableSlot(surls, rows, s);
    }
  }

  // ----- rows that are not stable -----

  /** The row's own status reads like the answer for a SURL without a row. */
  predicate SaysNothing(row: Row) {
    row.code == Some(INVALID_PATH) && row.explanation == NoInformation("").explanation
  }

  predicate NoneSaysNothing(rows: seq<Row>) { forall i :: 0 <= i < |rows| ==> !SaysNothing(rows[i]) }

  /** Every slot is from a loaded row or about a missing SURL. */
  lemma SlotOrigin(surls: seq<string>, turls: seq<Turl>, start: nat, slot: Option<FileStatus>)
    requires |turls| <= ArraySize(surls, turls)
    requires |turls| < |surls| ==> start + |Missing(surls, turls)| <= |surls|
    requires slot in FilesFrom(surls, turls, start) && slot.Some?
    ensures (exists t :: t in turls && slot.value == Report(t)) || slot.value == NoInformation(slot.value.surl)
  {
    hide Missing;
    var files := FilesFrom(surls, turls, start);
    var i :| 0 <= i < |files| && files[i] == slot;
    assert forall k :: 0 <= k < |turls| ==> turls[k] in turls;
  }

  /** A SURL of an unstable row can only be answered by another unstable row, with a longer SURL. */
  lemma LongerUnstable(surls: seq<string>, rows: seq<Row>, start: nat, i: nat) returns (j: nat)
    requires Asked(surls, rows) && NoneSaysNothing(rows)
    requires |TurlsOf(rows)| <= |surls|
    requires |TurlsOf(rows)| < |surls| ==> start + |Missing(surls, TurlsOf(rows))| <= |surls|
    requires i < |rows| && rows[i].code.Some? && !Stable(rows[i])
    requires SomeSlotRight(FilesFrom(surls, TurlsOf(rows), start), Escape(rows[i].surl), rows)
    ensures j < |rows| && rows[j].code.Some? && Normalize(rows[j].surl) == Success(rows[i].surl)
    ensures |rows[j].surl| > |rows[i].surl|
  {
    var s := Escape(rows[i].surl);
    assert Tells(rows[i], s);
    hide TurlsOf, FilesFrom, Normalize, Escape, Valid, Missing;
    var slot := RightForRow(FilesFrom(surls, TurlsOf(rows), start), s, rows);
    SlotOrigin(surls, TurlsOf(rows), start, slot);
    j := ReportedFrom(rows, slot.value);
    SameKept(rows, i, j);
  }

  lemma RightForRow(files: seq<Option<FileStatus>>, s: string, rows: seq<Row>) returns (slot: Option<FileStatus>)
    requires SomeSlotRight(files, s, rows) && HasRow(rows, s) && NoneSaysNothing(rows)
    ensures slot in files && slot.Some? && slot.value.surl == s && slot.value != NoInformation(s)
  {
    var k :| 0 <= k < |files| && RightSlot(files[k], s, rows);
    slot := files[k];
    var l :| 0 <= l < |rows| && Tells(rows[l], s)
             && slot.value == FileStatus(s, rows[l].code.value, rows[l].explanation);
    hide Escape;
    assert !SaysNothing(rows[l]);
  }

  lemma ReportedFrom(rows: seq<Row>, file: FileStatus) returns (j: nat)
    requires Loadable(rows) && exists t :: t in TurlsOf(rows) && file == Report(t)
    ensures j < |rows| && rows[j].code.Some? && Kept(rows[j].surl) == file.surl
  {
    LoadedTurls(rows);
    hide TurlsOf, Kept, Valid, Loadable;
    var t :| t in TurlsOf(rows) && file == Report(t);
    assert Told(t, rows);
    j :| 0 <= j < |rows| && rows[j].code.Some? && t == TurlOf(rows[j]);
  }

  lemma SameKept(rows: seq<Row>, i: nat, j: nat)
    requires Loadable(rows) && OneRowEach(rows) && i < |rows| && j < |rows| && !Stable(rows[i])
    requires Kept(rows[j].surl) == Escape(rows[i].surl)
    ensures Normalize(rows[j].surl) == Success(rows[i].surl) && |rows[j].surl| > |rows[i].surl|
  {
    EscapeRoundTrip(Normalize(rows[j].surl).value);
    EscapeRoundTrip(rows[i].surl);
    NormalizeShortens(rows[j].surl);
    hide Escape, Loadable;
  }

  function MaxLength(rows: seq<Row>): (n: nat)
    ensures forall i :: 0 <= i < |rows| ==> |rows[i].surl| <= n
  {
    if rows == [] then 0
    else
      var n := MaxLength(rows[..|rows| - 1]);
      if |rows[|rows| - 1].surl| > n then |rows[|rows| - 1].surl| else n
  }

  lemma {:induction false} CompleteMeansStable(surls: seq<string>, rows: seq<Row>, start: nat, i: nat)
    requires Asked(surls, rows) && NoneSaysNothing(rows)
    requires |TurlsOf(rows)| <= |surls|
    requires |TurlsOf(rows)| < |surls| ==> start + |Missing(surls, TurlsOf(rows))| <= |surls|
    requires Complete(FilesFrom(surls, TurlsOf(rows), start), surls, rows)
    requires i < |rows| && rows[i].code.Some?
    ensures Stable(rows[i])
    decreases MaxLength(rows) - |rows[i].surl|
  {
    if !Stable(rows[i]) {
      hide SomeSlotRight, TurlsOf, Missing, FilesFrom, Normalize, Escape;
      var j := LongerUnstable(surls, rows, start, i);
      CompleteMeansStable(surls, rows, start, j);
    }
  }

  // ----- the main results -----

  /** Every row is stable, and either there is none or every requested SURL has one. */
  predicate Reliable(surls: seq<string>, rows: seq<Row>) {
    && AllStable(rows)
    && ((forall i :: 0 <= i < |rows| ==> rows[i].code.None?) || (forall s :: s in surls ==> HasRow(rows, s)))
  }

  /** Building the array succeeds and every requested SURL is answered. */
  predicate Answered(surls: seq<string>, rows: seq<Row>)
    requires Loadable(rows)
  {
    var turls := TurlsOf(rows);
    && Outcome(surls, turls) == None
    && Complete(FilesFrom(surls, turls, StartIndex(turls)), surls, rows)
  }

  /** If addMissingSurls started right behind the rows, the answer would be right exactly for stable
      rows. */
  lemma StartingBehindIsComplete(surls: seq<string>, rows: seq<Row>)
    requires Asked(surls, rows)
    ensures |TurlsOf(rows)| <= |surls|
    ensures var turls := TurlsOf(rows);
      var fits := |turls| < |surls| ==> |turls| + |Missing(surls, turls)| <= |surls|;
      && (AllStable(rows) ==> fits && Complete(FilesFrom(surls, turls, |turls|), surls, rows))
      && (fits && Complete(FilesFrom(surls, turls, |turls|), surls, rows) && NoneSaysNothing(rows)
          ==> AllStable(rows))
  {
    RowCount(surls, rows);
    var turls := TurlsOf(rows);
    if AllStable(rows) {
      StableIsComplete(surls, rows);
    } else if (|turls| < |surls| ==> |turls| + |Missing(surls, turls)| <= |surls|) && NoneSaysNothing(rows)
              && Complete(FilesFrom(surls, turls, |turls|), surls, rows) {
      hide TurlsOf, FilesFrom, Missing, Complete, Normalize, Escape;
      forall i | 0 <= i < |rows| && rows[i].code.Some? ensures Stable(rows[i]) {
        CompleteMeansStable(surls, rows, |turls|, i);
      }
    }
  }

  /** Starting at the last row's slot, as the source does, the answer is right exactly if it is
      reliable: all rows are stable, and there is no row or nothing is missing. The only exception is
      a row that is not loaded under its own SURL but says word for word what is said of a SURL
      without a row. */
  lemma AnswerIsComplete(surls: seq<string>, rows: seq<Row>)
    requires Asked(surls, rows)
    ensures Reliable(surls, rows) ==> Answered(surls, rows)
    ensures Answered(surls, rows) && NoneSaysNothing(rows) ==> Reliable(surls, rows)
  {
    RowCount(surls, rows);
    NoTurls(rows);
    if AllStable(rows) {
      StableAnswers(surls, rows);
    } else if Answered(surls, rows) && NoneSaysNothing(rows) {
      hide TurlsOf, FilesFrom, Missing, Complete, Normalize, Escape;
      forall i | 0 <= i < |rows| && rows[i].code.Some? ensures Stable(rows[i]) {
        CompleteMeansStable(surls, rows, StartIndex(TurlsOf(rows)), i);
      }
    }
  }

  lemma {:induction false} NoTurls(rows: seq<Row>)
    requires Loadable(rows)
    ensures TurlsOf(rows) == [] <==> forall i :: 0 <= i < |rows| ==> rows[i].code.None?
  {
    if rows != [] {
      NoTurls(rows[..|rows| - 1]);
      assert forall i :: 0 <= i < |rows| - 1 ==> rows[..|rows| - 1][i] == rows[i];
      hide Valid, TurlOf;
    }
  }

  lemma ReliableCount(surls: seq<string>, rows: seq<Row>)
    requires Asked(surls, rows) && AllStable(rows)
    ensures Reliable(surls, rows) <==> TurlsOf(rows) == [] || |TurlsOf(rows)| == |surls|
  {
    RowCount(surls, rows);
    NoTurls(rows);
    hide TurlsOf, AllStable, HasRow, Asked;
  }

  /** For stable rows, without any exception. */
  lemma StableAnswers(surls: seq<string>, rows: seq<Row>)
    requires Asked(surls, rows) && AllStable(rows)
    ensures Outcome(surls, TurlsOf(rows)) == None
    ensures Answered(surls, rows) <==> Reliable(surls, rows)
  {
    ReliableCount(surls, rows);
    StableIsComplete(surls, rows);
    hide TurlsOf, AllStable, Asked, Reliable, SomeSlotRight;
    StartMatters(surls, rows, TurlsOf(rows));
  }

  lemma StartMatters(surls: seq<string>, rows: seq<Row>, turls: seq<Turl>)
    requires surls != [] && |turls| + |Missing(surls, turls)| == |surls|
    requires Complete(FilesFrom(surls, turls, |turls|), surls, rows)
    ensures Outcome(surls, turls) == None
    ensures Complete(FilesFrom(surls, turls, StartIndex(turls)), surls, rows) <==> turls == [] || |turls| == |surls|
  {
    SameStart(surls, turls);
    hide Missing, FilesFrom, Complete;
    if turls != [] && |turls| < |surls| {
      LastIsNull(surls, turls);
      NullIsIncomplete(FilesFrom(surls, turls, |turls| - 1), surls, rows);
    }
  }

  lemma LastIsNull(surls: seq<string>, turls: seq<Turl>)
    requires turls != [] && |turls| < |surls| && |turls| + |Missing(surls, turls)| == |surls|
    ensures var files := FilesFrom(surls, turls, |turls| - 1); |files| == |surls| && files[|files| - 1] == None
  {
    hide Missing, FilesFrom;
    FilesAt(surls, turls, |turls| - 1);
  }

  lemma NullIsIncomplete(files: seq<Option<FileStatus>>, surls: seq<string>, rows: seq<Row>)
    requires files != [] && files[|files| - 1] == None
    ensures !Complete(files, surls, rows)
  {
    hide SomeSlotRight;
  }

  lemma SameStart(surls: seq<string>, turls: seq<Turl>)
    requires |turls| + |Missing(surls, turls)| == |surls| != 0
    ensures turls == [] || |turls| == |surls| ==>
      FilesFrom(surls, turls, StartIndex(turls)) == FilesFrom(surls, turls, |turls|)
  {
    hide Missing;
  }

  // ----- whatever the rows say -----

  /** The same rows, except for what they say about their SURLs. */
  predicate SameSurls(rows: seq<Row>, other: seq<Row>) {
    && |other| == |rows|
    && forall i :: 0 <= i < |rows| ==> other[i].surl == rows[i].surl && (other[i].code.Some? <==> rows[i].code.Some?)
  }

  lemma SameSurlsAsked(surls: seq<string>, rows: seq<Row>, other: seq<Row>)
    requires Asked(surls, rows) && SameSurls(rows, other)
    ensures Asked(surls, other) && (Reliable(surls, other) <==> Reliable(surls, rows))
  {
    hide Escape, Normalize, Valid;
    assert Asked(surls, other);
    forall s ensures HasRow(other, s) <==> HasRow(rows, s) {
      if i :| 0 <= i < |rows| && Tells(rows[i], s) {
        assert Tells(other[i], s);
      }
      if i :| 0 <= i < |rows| && Tells(other[i], s) {
        assert Tells(rows[i], s);
      }
    }
  }

  function WithoutExplanations(rows: seq<Row>): (other: seq<Row>)
    ensures |other| == |rows| && forall i :: 0 <= i < |rows| ==> other[i] == rows[i].(explanation := "")
  {
    seq(|rows|, i requires 0 <= i < |rows| => rows[i].(explanation := ""))
  }

  /** So rows of these SURLs are answered whatever they say exactly if they are reliable. */
  lemma ReliableWhateverIsSaid(surls: seq<string>, rows: seq<Row>)
    requires Asked(surls, rows)
    ensures Reliable(surls, rows)
       <==> forall other :: SameSurls(rows, other) ==> Loadable(other) && Answered(surls, other)
  {
    hide Answered, Reliable, Asked;
    forall other | SameSurls(rows, other)
      ensures Loadable(other) && (Reliable(surls, rows) ==> Answered(surls, other))
    {
      SameSurlsAsked(surls, rows, other);
      AskedIsLoadable(surls, other);
      AnswerIsComplete(surls, other);
    }
    var other := WithoutExplanations(rows);
    assert SameSurls(rows, other);
    SameSurlsAsked(surls, rows, other);
    assert NoneSaysNothing(other);
    AnswerIsComplete(surls, other);
  }

  lemma AskedIsLoadable(surls: seq<string>, rows: seq<Row>)
    requires Asked(surls, rows)
    ensures Loadable(rows)
  {
  }

  // ----- srmStatusOfBringOnline -----

  /** The rows as they are reported. */
  function UpdatedRow(kind: Kind, row: Row, onDisk: string -> bool): Row {
    if kind.BoL? && Valid(row.surl) && row.code == Some(REQUEST_INPROGRESS) && onDisk(Kept(row.surl))
    then row.(code := Some(SUCCESS), explanation := "File recalled from tape") else row
  }

  function UpdatedRows(kind: Kind, rows: seq<Row>, onDisk: string -> bool): (updated: seq<Row>)
    ensures |updated| == |rows|
    ensures forall i :: 0 <= i < |rows| ==> updated[i] == UpdatedRow(kind, rows[i], onDisk)
  {
    seq(|rows|, i requires 0 <= i < |rows| => UpdatedRow(kind, rows[i], onDisk))
  }

  /** Updating the loaded rows is loading updated rows, so that the results above hold for what is
      reported. */
  lemma {:induction false} UpdateCommutes(kind: Kind, rows: seq<Row>, onDisk: string -> bool)
    requires Loadable(rows)
    ensures Loadable(UpdatedRows(kind, rows, onDisk))
    ensures Updated(kind, TurlsOf(rows), onDisk) == TurlsOf(UpdatedRows(kind, rows, onDisk))
    ensures SameSurls(rows, UpdatedRows(kind, rows, onDisk))
  {
    hide Valid, Kept;
    var updated := UpdatedRows(kind, rows, onDisk);
    if rows != [] {
      var m := |rows| - 1;
      UpdateCommutes(kind, rows[..m], onDisk);
      assert updated[..m] == UpdatedRows(kind, rows[..m], onDisk);
      if rows[m].code.Some? {
        UpdatedLast(kind, TurlsOf(rows[..m]), TurlOf(rows[m]), onDisk);
      }
    }
  }

  lemma UpdatedLast(kind: Kind, turls: seq<Turl>, turl: Turl, onDisk: string -> bool)
    ensures Updated(kind, turls + [turl], onDisk)
         == Updated(kind, turls, onDisk) + [if kind.BoL? then Recalled(turl, onDisk) else turl]
  {
  }

  /** The file is there, or has just been found on disk. */
  predicate Online(row: Row) {
    || row.code == Some(SUCCESS) || row.code == Some(FILE_IN_CACHE) || row.code == Some(RELEASED)
    || row.code == Some(REQUEST_INPROGRESS)
  }

  /** The row is queued, or in progress and not found on disk under the SURL that was loaded. */
  predicate Waits(row: Row, onDisk: string -> bool)
    requires Valid(row.surl)
  {
    row.code == Some(REQUEST_QUEUED) || (row.code == Some(REQUEST_INPROGRESS) && !onDisk(Kept(row.surl)))
  }

  predicate NoneWaits(rows: seq<Row>, onDisk: string -> bool)
    requires Loadable(rows)
  {
    forall i :: 0 <= i < |rows| ==> !Waits(rows[i], onDisk)
  }

  predicate AllOnline(rows: seq<Row>) { forall i :: 0 <= i < |rows| && rows[i].code.Some? ==> Online(rows[i]) }

  predicate NoneOnline(rows: seq<Row>) { forall i :: 0 <= i < |rows| ==> !Online(rows[i]) }

  predicate AllTerminal(turls: seq<Turl>) { forall i :: 0 <= i < |turls| ==> Terminal(turls[i].status) }

  predicate AllSuccessful(turls: seq<Turl>) { forall i :: 0 <= i < |turls| ==> Successful(turls[i].status) }

  predicate NoneSuccessful(turls: seq<Turl>) { forall i :: 0 <= i < |turls| ==> !Successful(turls[i].status) }

  /** The statuses that are reported, in terms of the rows. */
  lemma {:induction false} ReportedStatuses(rows: seq<Row>, onDisk: string -> bool)
    requires Loadable(rows)
    ensures var turls := Updated(BoL, TurlsOf(rows), onDisk);
      && (AllTerminal(turls) <==> NoneWaits(rows, onDisk))
      && (AllTerminal(turls) ==> (AllSuccessful(turls) <==> AllOnline(rows)))
      && (AllTerminal(turls) ==> (NoneSuccessful(turls) <==> NoneOnline(rows)))
  {
    if rows != [] {
      var last, before := rows[|rows| - 1], rows[..|rows| - 1];
      assert Loadable(before) && Valid(last.surl);
      ReportedStatuses(before, onDisk);
      LastWaits(rows, onDisk);
      LastOnline(rows);
      assert last.code.None? ==> !Online(last) && !Waits(last, onDisk);
      hide Loadable, Valid, Kept, TurlOf, Updated, Recalled, Waits, Online, Terminal, Successful;
      hide NoneWaits, AllOnline, NoneOnline, AllTerminal, AllSuccessful, NoneSuccessful;
      if last.code.Some? {
        UpdatedLast(BoL, TurlsOf(before), TurlOf(last), onDisk);
        LastTurl(Updated(BoL, TurlsOf(before), onDisk), Recalled(TurlOf(last), onDisk));
        ReportedStatus(last, onDisk);
      }
    }
  }

  lemma ReportedStatus(row: Row, onDisk: string -> bool)
    requires row.code.Some? && Valid(row.surl)
    ensures var status := Recalled(TurlOf(row), onDisk).status;
      && (Terminal(status) <==> !Waits(row, onDisk))
      && (Terminal(status) ==> (Successful(status) <==> Online(row)))
  {
    hide Valid, Kept;
  }

  lemma LastWaits(rows: seq<Row>, onDisk: string -> bool)
    requires Loadable(rows) && rows != []
    ensures Loadable(rows[..|rows| - 1])
    ensures NoneWaits(rows, onDisk) <==> NoneWaits(rows[..|rows| - 1], onDisk) && !Waits(rows[|rows| - 1], onDisk)
  {
    hide Valid, Waits;
    assert forall i :: 0 <= i < |rows| - 1 ==> rows[..|rows| - 1][i] == rows[i];
  }

  lemma LastOnline(rows: seq<Row>)
    requires rows != []
    ensures var last, before := rows[|rows| - 1], rows[..|rows| - 1];
      && (AllOnline(rows) <==> AllOnline(before) && (last.code.Some? ==> Online(last)))
      && (NoneOnline(rows) <==> NoneOnline(before) && !Online(last))
  {
    hide Online;
    assert forall i :: 0 <= i < |rows| - 1 ==> rows[..|rows| - 1][i] == rows[i];
  }

  lemma LastTurl(turls: seq<Turl>, turl: Turl)
    ensures AllTerminal(turls + [turl]) <==> AllTerminal(turls) && Terminal(turl.status)
    ensures AllSuccessful(turls + [turl]) <==> AllSuccessful(turls) && Successful(turl.status)
    ensures NoneSuccessful(turls + [turl]) <==> NoneSuccessful(turls) && !Successful(turl.status)
  {
    hide Terminal, Successful;
    assert (turls + [turl])[|turls|] == turl;
    assert forall i :: 0 <= i < |turls| ==> (turls + [turl])[i] == turls[i];
  }

  /** Every requested SURL has a row with a status, and no row waits. */
  predicate Settled(surls: seq<string>, rows: seq<Row>, onDisk: string -> bool)
    requires Loadable(rows)
  {
    (forall s :: s in surls ==> HasRow(rows, s)) && NoneWaits(rows, onDisk)
  }

  /** srmStatusOfBringOnline replaces the status of the request, whichever it is, exactly when the
      request is settled; and then by SRM_SUCCESS if all files are online, by SRM_FAILURE if none is,
      and by SRM_PARTIAL_SUCCESS otherwise. */
  lemma BringOnlineStatus(surls: seq<string>, rows: seq<Row>, given: StatusCode, onDisk: string -> bool)
    requires Asked(surls, rows)
    ensures OverallStatus(BoL, given, |surls|, Updated(BoL, TurlsOf(rows), onDisk)) ==
      if !Settled(surls, rows, onDisk) then given
      else if AllOnline(rows) then SUCCESS
      else if NoneOnline(rows) then FAILURE
      else PARTIAL_SUCCESS
  {
    RowCount(surls, rows);
    ReportedStatuses(rows, onDisk);
    var turls := Updated(BoL, TurlsOf(rows), onDisk);
    assert |turls| == |TurlsOf(rows)|;
    hide TurlsOf, HasRow, Selected, DistinctSurls, OneRowEach, Loadable, NoneWaits, AllOnline, NoneOnline, Updated;
    OverallStatusIs(given, |surls|, turls);
  }

  lemma OverallStatusIs(given: StatusCode, size: nat, turls: seq<Turl>)
    ensures OverallStatus(BoL, given, size, turls) ==
      if size == 0 || |turls| != size || !AllTerminal(turls) then given
      else if AllSuccessful(turls) then SUCCESS
      else if NoneSuccessful(turls) then FAILURE
      else PARTIAL_SUCCESS
  {
  }

  // ----- requests without SURLs -----

  /** Without requested SURLs, every row with a status gets its slot, and there are no others. */
  lemma AllFilesAnswered(rows: seq<Row>)
    requires Loadable(rows)
    ensures var turls := TurlsOf(rows); var files := FilesFrom([], turls, StartIndex(turls));
      && Outcome([], turls) == None && |files| == |turls|
      && (forall i :: 0 <= i < |rows| && rows[i].code.Some? ==>
            Some(FileStatus(Kept(rows[i].surl), rows[i].code.value, rows[i].explanation)) in files)
      && (forall k :: 0 <= k < |files| ==> files[k].Some? && TellsOf(rows, files[k].value))
  {
    LoadedTurls(rows);
    var turls := TurlsOf(rows);
    var files := FilesFrom([], turls, StartIndex(turls));
    hide TurlsOf, Kept, Valid;
    assert files == Reports(turls);
    forall i | 0 <= i < |rows| && rows[i].code.Some?
      ensures Some(FileStatus(Kept(rows[i].surl), rows[i].code.value, rows[i].explanation)) in files
    {
      assert Told(TurlOf(rows[i]), rows);
      var k :| 0 <= k < |turls| && turls[k] == TurlOf(rows[i]);
      assert files[k] in files;
    }
    forall k | 0 <= k < |files| ensures files[k].Some? && TellsOf(rows, files[k].value) {
      assert turls[k] in turls;
    }
  }

  predicate TellsOf(rows: seq<Row>, file: FileStatus)
    requires Loadable(rows)
  {
    exists i :: 0 <= i < |rows| && rows[i].code.Some?
                && file == FileStatus(Kept(rows[i].surl), rows[i].code.value, rows[i].explanation)
  }

  /** The status of srmStatusOfBringOnline is then replaced exactly if some row has a status and none
      waits. */
  lemma BringOnlineStatusOfAll(rows: seq<Row>, given: StatusCode, onDisk: string -> bool)
    requires Loadable(rows)
    ensures var turls := Updated(BoL, TurlsOf(rows), onDisk);
      OverallStatus(BoL, given, ArraySize([], turls), turls) ==
        if (forall i :: 0 <= i < |rows| ==> rows[i].code.None?) || !NoneWaits(rows, onDisk) then given
        else if AllOnline(rows) then SUCCESS
        else if NoneOnline(rows) then FAILURE
        else PARTIAL_SUCCESS
  {
    NoTurls(rows);
    ReportedStatuses(rows, onDisk);
    var turls := Updated(BoL, TurlsOf(rows), onDisk);
    assert |turls| == |TurlsOf(rows)|;
    hide TurlsOf, Loadable, NoneWaits, AllOnline, NoneOnline, Updated;
    OverallStatusIs(given, |turls|, turls);
  }

  // ----- inputs for which the answer is wrong -----

  function WithPattern(name: string): string { SCHEME + ("h" + (QUERY_PATTERN + name)) }

  function WithoutPattern(name: string): string { SCHEME + ("h" + name) }

  function Succeeded(surl: string): Row { Row("dn", Some(SUCCESS), "", surl, Some(SUCCESS), "") }

  /** SURLs like these are the normal forms of others, and no fixed points. */
  lemma PatternRemains(name: string)
    requires NoPair(name) && NoSpace(name)
    ensures Normalize(SCHEME + ("h" + (QUERY_PATTERN + (QUERY_PATTERN + name)))) == Success(WithPattern(name))
    ensures Valid(WithPattern(name)) && Kept(WithPattern(name)) == Escape(WithoutPattern(name))
    ensures WithPattern(name) != WithoutPattern(name)
  {
    PatternTwice("h", name);
  }

  lemma OneRow(row: Row)
    requires row.code.Some? && Valid(row.surl)
    ensures Asked([Escape(row.surl)], [row]) && TurlsOf([row]) == [TurlOf(row)]
  {
    hide Valid, Kept, Escape;
    assert [row][..0] == [];
  }

  /** One requested SURL with a row: the only slot is about another SURL. */
  lemma OtherSurlAnswered()
    ensures Asked([Escape(WithPattern("/f"))], [Succeeded(WithPattern("/f"))])
    ensures !Answered([Escape(WithPattern("/f"))], [Succeeded(WithPattern("/f"))])
    ensures TurlsOf([Succeeded(WithPattern("/f"))]) == [Turl(Escape(WithoutPattern("/f")), SUCCESS, "")]
  {
    PatternRemains("/f");
    EscapeRoundTrip(WithPattern("/f"));
    EscapeRoundTrip(WithoutPattern("/f"));
    hide WithPattern, WithoutPattern, Kept, Valid, Normalize, Escape, Answered, Asked, TurlsOf;
    OneRow(Succeeded(WithPattern("/f")));
    NotReliable([Escape(WithPattern("/f"))], [Succeeded(WithPattern("/f"))]);
  }

  lemma NotReliable(surls: seq<string>, rows: seq<Row>)
    requires Asked(surls, rows) && rows != [] && rows[0].code.Some? && Kept(rows[0].surl) != Escape(rows[0].surl)
    requires NoneSaysNothing(rows)
    ensures !Answered(surls, rows)
  {
    AnswerIsComplete(surls, rows);
    hide Answered, Escape, HasRow;
  }

  lemma TwoLoaded(row: Row, other: Row)
    requires row.code.Some? && other.code.Some? && Valid(row.surl) && Valid(other.surl)
    ensures Loadable([row, other]) && TurlsOf([row, other]) == [TurlOf(row), TurlOf(other)]
  {
    OneRow(row);
    hide Valid, Kept, Escape;
    assert [row, other][..1] == [row];
  }

  lemma TwoAsked(row: Row, other: Row, surl: string)
    requires Valid(row.surl) && Valid(other.surl)
    requires Escape(row.surl) != Escape(other.surl) && surl != Escape(row.surl) && surl != Escape(other.surl)
    ensures Asked([Escape(row.surl), Escape(other.surl), surl], [row, other])
  {
    hide Valid, Escape;
    var surls := [Escape(row.surl), Escape(other.surl), surl];
    assert surls[0] in surls && surls[1] in surls;
  }

  lemma {:induction false} NoneNamed(a: string, b: string, c: string, x: Turl, y: Turl)
    requires a != b && a != c && b != c
    requires x.surl != a && x.surl != b && x.surl != c && y.surl != a && y.surl != b && y.surl != c
    ensures Outcome([a, b, c], [x, y]) == Some(StatusError.LogicError)
  {
    var surls, turls := [a, b, c], [x, y];
    GuardIsHit(surls, turls);
    hide Outcome;
    assert Hits(surls, turls) == {};
  }

  lemma PatternNames(c: char, d: char)
    requires HostChar(c) && c != '/' && HostChar(d) && d != '/'
    ensures var f, g := WithPattern(['/', c]), WithPattern(['/', d]);
      && Valid(f) && Kept(f) != Escape(f) && Kept(f) != Escape(g)
      && (c != d ==> Escape(f) != Escape(g))
  {
    var f, g := WithPattern(['/', c]), WithPattern(['/', d]);
    assert !PairAt(['/', c], 0);
    PatternRemains(['/', c]);
    assert f[|f| - 1] == c && g[|g| - 1] == d;
    assert |WithoutPattern(['/', c])| != |g|;
    hide WithPattern, WithoutPattern, Kept, Valid, Normalize, Escape;
    EscapeRoundTrip(f);
    EscapeRoundTrip(g);
    EscapeRoundTrip(WithoutPattern(['/', c]));
  }

  /** Three such SURLs, two of which have a row: addMissingSurls throws. */
  lemma GuardHitByTwo()
    ensures var f, g, k := WithPattern(['/', 'f']), WithPattern(['/', 'g']), WithPattern(['/', 'k']);
      && Asked([Escape(f), Escape(g), Escape(k)], [Succeeded(f), Succeeded(g)])
      && Outcome([Escape(f), Escape(g), Escape(k)], TurlsOf([Succeeded(f), Succeeded(g)]))
         == Some(StatusError.LogicError)
  {
    var f, g, k := WithPattern(['/', 'f']), WithPattern(['/', 'g']), WithPattern(['/', 'k']);
    PatternNames('f', 'g');
    PatternNames('f', 'k');
    PatternNames('g', 'f');
    PatternNames('g', 'k');
    hide WithPattern, WithoutPattern, Kept, Valid, Escape, Asked, TurlsOf, Outcome;
    TwoLoaded(Succeeded(f), Succeeded(g));
    TwoAsked(Succeeded(f), Succeeded(g), Escape(k));
    NoneNamed(Escape(f), Escape(g), Escape(k), TurlOf(Succeeded(f)), TurlOf(Succeeded(g)));
  }

  /** Two SURLs, of which the first has a row: its status is not in the answer. */
  lemma FoundStatusLost()
    ensures var turls := [Turl("a", SUCCESS, "")];
      && Fits(["a", "b"], turls)
      && FilesFrom(["a", "b"], turls, StartIndex(turls)) == [Some(NoInformation("b")), None]
  {
    var surls, turls := ["a", "b"], [Turl("a", SUCCESS, "")];
    assert turls[0].surl == "a" && Named(turls, "a") && !Named(turls, "b");
    assert surls[..1] == ["a"] && ["a"][..0] == [];
    assert Missing(["a"], turls) == [];
    assert Missing(surls, turls) == ["b"];
  }

  function NothingSaid(surl: string): Row {
    Row("dn", Some(SUCCESS), "", surl, Some(INVALID_PATH), "No information about this SURL")
  }

  lemma SaidOf(surl: string)
    ensures NothingSaid(surl).surl == surl && SaysNothing(NothingSaid(surl))
  {
  }

  /** The exception: such a SURL whose row says word for word what is said of a SURL without a row. */
  lemma WordForWord()
    ensures var f, g := WithPattern(['/', 'f']), WithPattern(['/', 'g']);
      && Asked([Escape(f), Escape(g)], [NothingSaid(f)])
      && Answered([Escape(f), Escape(g)], [NothingSaid(f)]) && !Reliable([Escape(f), Escape(g)], [NothingSaid(f)])
  {
    PatternNames('f', 'g');
    SaidOf(WithPattern(['/', 'f']));
    hide NothingSaid, SaysNothing, WithPattern, Kept, Valid, Escape, Asked, Answered, Reliable;
    AnsweredByChance(NothingSaid(WithPattern(['/', 'f'])), Escape(WithPattern(['/', 'g'])));
  }

  lemma {:induction false} AnsweredByChance(row: Row, b: string)
    requires Valid(row.surl) && SaysNothing(row) && b != Escape(row.surl)
    requires Kept(row.surl) != Escape(row.surl) && Kept(row.surl) != b
    ensures Asked([Escape(row.surl), b], [row])
    ensures Answered([Escape(row.surl), b], [row]) && !Reliable([Escape(row.surl), b], [row])
  {
    OneRow(row);
    NoStableRow(Escape(row.surl), b, row);
    hide Kept, Valid, Escape, Asked, Reliable, Outcome, FilesFrom, TurlsOf, Complete;
    BothMissing(Escape(row.surl), b, TurlsOf([row]));
    BothAnswered(Escape(row.surl), b, row);
  }

  lemma {:induction false} NoStableRow(a: string, b: string, row: Row)
    requires Asked([a], [row]) && a != b && row.code.Some? && Valid(row.surl) && Kept(row.surl) != Escape(row.surl)
    ensures Asked([a, b], [row]) && !Reliable([a, b], [row])
  {
    hide Escape, Valid, HasRow;
    assert [row][0] == row && !Stable(row);
    assert [a, b][0] == a;
  }

  lemma {:induction false} BothMissing(a: string, b: string, turls: seq<Turl>)
    requires a != b && |turls| == 1 && turls[0].surl != a && turls[0].surl != b
    ensures Missing([a, b], turls) == [a, b] && Outcome([a, b], turls) == None
    ensures FilesFrom([a, b], turls, StartIndex(turls)) == [Some(NoInformation(a)), Some(NoInformation(b))]
  {
    assert [a, b][..1] == [a] && [a][..0] == [];
    assert Missing([a], turls) == [a];
  }

  lemma BothAnswered(a: string, b: string, row: Row)
    requires SaysNothing(row) && Escape(row.surl) == a && a != b
    ensures Complete([Some(NoInformation(a)), Some(NoInformation(b))], [a, b], [row])
  {
    hide Escape;
    var files, rows := [Some(NoInformation(a)), Some(NoInformation(b))], [row];
    assert Tells(rows[0], a) && !HasRow(rows, b);
    assert RightSlot(files[0], a, rows) && RightSlot(files[1], b, rows);
  }
}
