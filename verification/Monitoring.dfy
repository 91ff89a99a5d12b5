/** The periodic report over all monitors (src/frontend/Monitoring.hpp). */
module Monitoring {
  import opened Monitors

  datatype Summary = Summary(
    completed: int, failed: int, errors: int, maxTime: real, minTime: real, totalTime: real)

  const EMPTY := Summary(0, 0, 0, 0.0, 0.0, 0.0)

  /** One turn of the summary loops. Here 0.0 stands for an extreme that is not set yet. */
  function Added(summary: Summary, s: Status): Summary {
    Summary(
      summary.completed + s.completed, summary.failed + s.failures, summary.errors + s.errors,
      if summary.maxTime == 0.0 || s.max > summary.maxTime then s.max else summary.maxTime,
      if summary.minTime == 0.0 || s.min < summary.minTime then s.min else summary.minTime,
      summary.totalTime + s.total)
  }

  function SummaryOf(parts: seq<Status>): Summary {
    if parts == [] then EMPTY else Added(SummaryOf(parts[..|parts| - 1]), parts[|parts| - 1])
  }

  lemma AddedLast(parts: seq<Status>, last: Status)
    ensures SummaryOf(parts + [last]) == Added(SummaryOf(parts), last)
  {
    assert (parts + [last])[..|parts|] == parts;
  }

  // ----- what a summary is about -----

  /** The figures of one monitor, of a round or of the past, with the operations they are about. */
  datatype Item = Item(operationType: OperationType, figures: Status, events: seq<Event>)

  predicate AllDescribed(items: seq<Item>) {
    forall i :: 0 <= i < |items| ==> Describes(items[i].figures, items[i].events)
  }

  /** The figures of this type that are not clean. */
  function Parts(items: seq<Item>, operationType: OperationType): seq<Status> {
    if items == [] then []
    else
      var last, before := items[|items| - 1], Parts(items[..|items| - 1], operationType);
      if !IsClean(last.figures) && last.operationType == operationType then before + [last.figures] else before
  }

  /** The operations of this type. */
  function EventsOf(items: seq<Item>, operationType: OperationType): seq<Event> {
    if items == [] then []
    else
      var last, before := items[|items| - 1], EventsOf(items[..|items| - 1], operationType);
      if last.operationType == operationType then before + last.events else before
  }

  predicate CountsMatch(summary: Summary, events: seq<Event>) {
    && summary.completed == |events|
    && summary.failed == CountOf(events, Failed) && summary.errors == CountOf(events, Errored)
    && summary.totalTime == SumTimes(events)
  }

  /** A last item with operations of this type adds one to the parts, and its operations. */
  lemma LastItemCounts(items: seq<Item>, operationType: OperationType)
    requires items != [] && Describes(items[|items| - 1].figures, items[|items| - 1].events)
    requires items[|items| - 1].operationType == operationType && items[|items| - 1].events != []
    ensures var last, before := items[|items| - 1], items[..|items| - 1];
      && Parts(items, operationType) == Parts(before, operationType) + [last.figures]
      && SummaryOf(Parts(items, operationType)) == Added(SummaryOf(Parts(before, operationType)), last.figures)
      && EventsOf(items, operationType) == EventsOf(before, operationType) + last.events
  {
    var last := items[|items| - 1];
    assert !IsClean(last.figures);
    hide Describes, IsClean, Added, SummaryOf;
    AddedLast(Parts(items[..|items| - 1], operationType), last.figures);
  }

  lemma LastItemSkipped(items: seq<Item>, operationType: OperationType)
    requires items != [] && Describes(items[|items| - 1].figures, items[|items| - 1].events)
    requires items[|items| - 1].operationType != operationType || items[|items| - 1].events == []
    ensures var before := items[..|items| - 1];
      && Parts(items, operationType) == Parts(before, operationType)
      && EventsOf(items, operationType) == EventsOf(before, operationType)
  {
    var last, before := items[|items| - 1], items[..|items| - 1];
    assert last.events == [] ==> IsClean(last.figures);
    hide Describes, IsClean;
    assert last.events == [] ==> EventsOf(before, operationType) + last.events == EventsOf(before, operationType);
  }

  lemma CountsStep(summary: Summary, events: seq<Event>, figures: Status, more: seq<Event>)
    requires CountsMatch(summary, events) && Describes(figures, more)
    ensures CountsMatch(Added(summary, figures), events + more)
  {
    SumsConcat(events, more);
  }

  /** The counts and the total time of a summary are those of all operations of its type. */
  lemma {:induction false} SummaryCounts(items: seq<Item>, operationType: OperationType)
    requires AllDescribed(items)
    ensures CountsMatch(SummaryOf(Parts(items, operationType)), EventsOf(items, operationType))
  {
    if items != [] {
      var m := |items| - 1;
      var last := items[m];
      assert AllDescribed(items[..m]) && Describes(last.figures, last.events);
      SummaryCounts(items[..m], operationType);
      hide *;
      if last.operationType == operationType && last.events != [] {
        LastItemCounts(items, operationType);
        CountsStep(SummaryOf(Parts(items[..m], operationType)), EventsOf(items[..m], operationType),
                   last.figures, last.events);
      } else {
        LastItemSkipped(items, operationType);
      }
    }
  }

  predicate NoNegativeTimes(items: seq<Item>) {
    forall i, j :: 0 <= i < |items| && 0 <= j < |items[i].events| ==> items[i].events[j].millis >= 0
  }

  /** No figures with the minimum 0.0, or the last figures have it. */
  predicate MinimumKept(parts: seq<Status>) {
    (forall i :: 0 <= i < |parts| ==> parts[i].min != 0.0) || (parts != [] && parts[|parts| - 1].min == 0.0)
  }

  predicate SomeZero(parts: seq<Status>) { exists i :: 0 <= i < |parts| && parts[i].min == 0.0 }

  /** How far the extremes of a summary are right: the maximum always; the minimum until some figures
      have the minimum 0.0, which the next ones overwrite. */
  predicate ExtremesSoFar(summary: Summary, parts: seq<Status>, events: seq<Event>) {
    if parts == [] then events == [] && summary.maxTime == 0.0 && summary.minTime == 0.0
    else
      && IsGreatest(summary.maxTime, events) && summary.minTime >= 0.0
      && if SomeZero(parts)
         then IsLeast(0.0, events) && (summary.minTime == 0.0 <==> parts[|parts| - 1].min == 0.0)
         else IsLeast(summary.minTime, events) && summary.minTime > 0.0
  }

  lemma {:induction false} SummaryExtremesSoFar(items: seq<Item>, operationType: OperationType)
    requires AllDescribed(items) && NoNegativeTimes(items)
    ensures ExtremesSoFar(SummaryOf(Parts(items, operationType)), Parts(items, operationType),
                          EventsOf(items, operationType))
  {
    if items != [] {
      var m := |items| - 1;
      var last := items[m];
      var before := items[..m];
      assert AllDescribed(before) && NoNegativeTimes(before) by {
        assert forall i :: 0 <= i < m ==> before[i] == items[i];
      }
      SummaryExtremesSoFar(before, operationType);
      assert Describes(last.figures, last.events);
      assert forall j :: 0 <= j < |last.events| ==> Seconds(last.events[j]) >= 0.0;
      hide *;
      if last.operationType == operationType && last.events != [] {
        LastItemCounts(items, operationType);
        ExtremesStep(SummaryOf(Parts(before, operationType)), Parts(before, operationType),
                     EventsOf(before, operationType), last.figures, last.events);
      } else {
        LastItemSkipped(items, operationType);
      }
    }
  }

  lemma ExtremesStep(summary: Summary, parts: seq<Status>, events: seq<Event>, figures: Status, more: seq<Event>)
    requires ExtremesSoFar(summary, parts, events) && Describes(figures, more) && more != []
    requires forall j :: 0 <= j < |more| ==> Seconds(more[j]) >= 0.0
    ensures ExtremesSoFar(Added(summary, figures), parts + [figures], events + more)
  {
    var all := parts + [figures];
    assert figures.min >= 0.0 && figures.max >= 0.0;
    assert all[|parts|] == figures;
    if parts == [] {
      assert events + more == more;
    } else {
      ExtremesConcat(events, more, summary.maxTime, figures.max);
      ExtremesConcat(events, more, if SomeZero(parts) then 0.0 else summary.minTime, figures.min);
      GreatestIsNotNegative(events, summary.maxTime, summary.minTime);
      if SomeZero(parts) {
        var i :| 0 <= i < |parts| && parts[i].min == 0.0;
        assert all[i].min == 0.0;
      } else {
        assert forall i :: 0 <= i < |parts| ==> all[i] == parts[i];
      }
    }
  }

  lemma GreatestIsNotNegative(events: seq<Event>, greatest: real, least: real)
    requires IsGreatest(greatest, events)
    ensures (IsLeast(0.0, events) || (IsLeast(least, events) && least >= 0.0)) ==> greatest >= 0.0
  {
  }

  lemma LeastIsUnique(x: real, y: real, events: seq<Event>)
    requires IsLeast(x, events) && IsLeast(y, events)
    ensures x == y
  {
    var i :| 0 <= i < |events| && Seconds(events[i]) == x;
    var j :| 0 <= j < |events| && Seconds(events[j]) == y;
    assert x <= Seconds(events[j]) && y <= Seconds(events[i]);
  }

  /** With times of 0 or more, the maximum of a summary is that of all operations of its type; the
      minimum is right exactly if no counted monitor has the minimum 0.0 or the last one has it. */
  lemma SummaryExtremes(items: seq<Item>, operationType: OperationType)
    requires AllDescribed(items) && NoNegativeTimes(items) && EventsOf(items, operationType) != []
    ensures var parts := Parts(items, operationType); var events := EventsOf(items, operationType);
      && IsGreatest(SummaryOf(parts).maxTime, events)
      && (IsLeast(SummaryOf(parts).minTime, events) <==> MinimumKept(parts))
  {
    SummaryExtremesSoFar(items, operationType);
    var parts := Parts(items, operationType);
    var events := EventsOf(items, operationType);
    if SomeZero(parts) && IsLeast(SummaryOf(parts).minTime, events) {
      LeastIsUnique(0.0, SummaryOf(parts).minTime, events);
    }
  }

  /** With positive times both extremes are right. */
  lemma PositiveTimesAreExact(items: seq<Item>, operationType: OperationType)
    requires AllDescribed(items) && NoNegativeTimes(items) && EventsOf(items, operationType) != []
    requires forall event :: event in EventsOf(items, operationType) ==> event.millis > 0
    ensures var summary := SummaryOf(Parts(items, operationType));
      && IsLeast(summary.minTime, EventsOf(items, operationType))
      && IsGreatest(summary.maxTime, EventsOf(items, operationType))
  {
    SummaryExtremesSoFar(items, operationType);
    var events := EventsOf(items, operationType);
    hide Parts, EventsOf, SummaryOf, AllDescribed, NoNegativeTimes;
    assert forall i :: 0 <= i < |events| ==> events[i] in events && Seconds(events[i]) > 0.0;
  }

  lemma TwoItems(first: Item, second: Item, operationType: OperationType)
    requires Describes(first.figures, first.events) && Describes(second.figures, second.events)
    requires first.operationType == second.operationType == operationType && first.events != [] && second.events != []
    ensures SummaryOf(Parts([first, second], operationType)) == Added(Added(EMPTY, first.figures), second.figures)
    ensures EventsOf([first, second], operationType) == first.events + second.events
  {
    hide Describes, Parts, EventsOf, SummaryOf, Added;
    LastItemCounts([first], operationType);
    LastItemCounts([first, second], operationType);
    NoItems(operationType);
    assert [first, second][..1] == [first] && [first][..0] == [];
    assert [] + first.events == first.events;
  }

  const FAST := Event(0, Succeeded)
  const SLOW := Event(1000, Succeeded)

  function OneOperation(event: Event): Item { Item(Synchronous, Single(event), [event]) }

  /** Two monitors of one operation each, the first of 0 ms: the report forgets it. */
  lemma MinimumForgotten()
    ensures Describes(Single(FAST), [FAST]) && Describes(Single(SLOW), [SLOW])
    ensures IsLeast(0.0, EventsOf([OneOperation(FAST), OneOperation(SLOW)], Synchronous))
    ensures SummaryOf(Parts([OneOperation(FAST), OneOperation(SLOW)], Synchronous)).minTime == 1.0
  {
    SingleDescribes(FAST);
    SingleDescribes(SLOW);
    ExtremesConcat([FAST], [SLOW], 0.0, 1.0);
    hide Parts, EventsOf, SummaryOf, Describes, IsLeast;
    TwoItems(OneOperation(FAST), OneOperation(SLOW), Synchronous);
  }

  lemma NoItems(operationType: OperationType)
    ensures Parts([], operationType) == [] && EventsOf([], operationType) == [] && SummaryOf([]) == EMPTY
  {
  }

  // ----- the monitors -----

  ghost function RoundItems(monitors: seq<Monitor>): (items: seq<Item>)
    reads monitors
    ensures |items| == |monitors|
    ensures forall i :: 0 <= i < |monitors| ==>
      items[i] == Item(monitors[i].operationType, monitors[i].current, monitors[i].round)
  {
    if monitors == [] then []
    else
      var last := monitors[|monitors| - 1];
      RoundItems(monitors[..|monitors| - 1]) + [Item(last.operationType, last.current, last.round)]
  }

  ghost function PastItems(monitors: seq<Monitor>): (items: seq<Item>)
    reads monitors
    ensures |items| == |monitors|
    ensures forall i :: 0 <= i < |monitors| ==>
      items[i] == Item(monitors[i].operationType, monitors[i].aggregated, monitors[i].past)
  {
    if monitors == [] then []
    else
      var last := monitors[|monitors| - 1];
      PastItems(monitors[..|monitors| - 1]) + [Item(last.operationType, last.aggregated, last.past)]
  }

  /** What buildSummary adds up: also monitors whose only operations are of the current round. */
  ghost function NonEmpty(monitors: seq<Monitor>, operationType: OperationType): seq<Status>
    reads monitors
  {
    if monitors == [] then []
    else
      var last, before := monitors[|monitors| - 1], NonEmpty(monitors[..|monitors| - 1], operationType);
      if !last.IsEmpty() && last.operationType == operationType then before + [last.aggregated] else before
  }

  /** After endRound these are the figures of the past that are not clean. */
  lemma {:induction false} NonEmptyAfterEndRound(monitors: seq<Monitor>, operationType: OperationType)
    requires forall i :: 0 <= i < |monitors| ==> IsClean(monitors[i].current)
    ensures NonEmpty(monitors, operationType) == Parts(PastItems(monitors), operationType)
  {
    if monitors != [] {
      var m := |monitors| - 1;
      NonEmptyAfterEndRound(monitors[..m], operationType);
      assert PastItems(monitors)[..m] == PastItems(monitors[..m]);
    }
  }

  /** The rounds joining the past: the counts and times add up. */
  lemma {:induction false} RoundsJoin(past: seq<Item>, round: seq<Item>, now: seq<Item>, operationType: OperationType)
    requires |past| == |round| == |now|
    requires forall i :: 0 <= i < |now| ==>
      && now[i].operationType == past[i].operationType == round[i].operationType
      && now[i].events == past[i].events + round[i].events
    ensures var p, r, n :=
        EventsOf(past, operationType), EventsOf(round, operationType), EventsOf(now, operationType);
      && |n| == |p| + |r|
      && (forall outcome :: CountOf(n, outcome) == CountOf(p, outcome) + CountOf(r, outcome))
      && SumTimes(n) == SumTimes(p) + SumTimes(r)
  {
    if now != [] {
      var m := |now| - 1;
      RoundsJoin(past[..m], round[..m], now[..m], operationType);
      LastEvents(past, operationType);
      LastEvents(round, operationType);
      LastEvents(now, operationType);
      SumsConcat(past[m].events, round[m].events);
    }
  }

  lemma LastEvents(items: seq<Item>, operationType: OperationType)
    requires items != []
    ensures var m := |items| - 1;
      var before, all := EventsOf(items[..m], operationType), EventsOf(items, operationType);
      if items[m].operationType == operationType
      then
        && |all| == |before| + |items[m].events|
        && (forall outcome :: CountOf(all, outcome) == CountOf(before, outcome) + CountOf(items[m].events, outcome))
        && SumTimes(all) == SumTimes(before) + SumTimes(items[m].events)
      else all == before
  {
    SumsConcat(EventsOf(items[..|items| - 1], operationType), items[|items| - 1].events);
  }

  /** Counts and times of two summaries together are those of a third. */
  predicate AddUp(before: Summary, round: Summary, after: Summary) {
    && after.completed == before.completed + round.completed
    && after.failed == before.failed + round.failed && after.errors == before.errors + round.errors
    && after.totalTime == before.totalTime + round.totalTime
  }

  datatype Report = Report(sync: Summary, async: Summary, roundSync: Summary, roundAsync: Summary)

  class Monitoring {
    const monitors: seq<Monitor>

    ghost predicate Valid()
      reads monitors
    {
      && (forall i, j :: 0 <= i < j < |monitors| ==> monitors[i] != monitors[j])
      && (forall i :: 0 <= i < |monitors| ==> monitors[i].Valid())
    }

    method BuildRoundSummary(operationType: OperationType) returns (summary: Summary)
      ensures summary == SummaryOf(Parts(RoundItems(monitors), operationType))
    {
      summary := EMPTY;
      for k := 0 to |monitors|
        invariant summary == SummaryOf(Parts(RoundItems(monitors[..k]), operationType))
      {
        var m := monitors[k];
        assert monitors[..k + 1][..k] == monitors[..k];
        assert RoundItems(monitors[..k + 1])[..k] == RoundItems(monitors[..k]);
        AddedLast(Parts(RoundItems(monitors[..k]), operationType), m.current);
        if m.IsUpdated() && m.operationType == operationType {
          summary := Added(summary, m.current);
        }
      }
      assert monitors[..|monitors|] == monitors;
    }

    method BuildSummary(operationType: OperationType) returns (summary: Summary)
      ensures summary == SummaryOf(NonEmpty(monitors, operationType))
    {
      summary := EMPTY;
      for k := 0 to |monitors|
        invariant summary == SummaryOf(NonEmpty(monitors[..k], operationType))
      {
        var m := monitors[k];
        assert monitors[..k + 1][..k] == monitors[..k];
        if !m.IsEmpty() && m.operationType == operationType {
          AddedLast(NonEmpty(monitors[..k], operationType), m.aggregated);
          summary := Added(summary, m.aggregated);
        }
      }
      assert monitors[..|monitors|] == monitors;
    }

    /** endRound: only monitors with operations in this round are digested, so that every figure
        stays right. */
    method EndRound()
      requires Valid()
      modifies monitors
      ensures Valid()
      ensures forall i :: 0 <= i < |monitors| ==>
        var m := monitors[i];
        m.past == old(m.past) + old(m.round) && m.round == [] && IsClean(m.current)
    {
      hide Describes, MergedIn;
      for k := 0 to |monitors|
        invariant Valid()
        invariant forall i :: 0 <= i < k ==>
          var m := monitors[i];
          m.past == old(m.past) + old(m.round) && m.round == [] && IsClean(m.current)
        invariant forall i :: k <= i < |monitors| ==>
          var m := monitors[i];
          m.past == old(m.past) && m.round == old(m.round)
      {
        var m := monitors[k];
        if m.IsUpdated() {
          m.DigestRound();
        } else {
          CleanIsEmpty(m.current, m.round);
          assert m.past + m.round == m.past;
        }
      }
    }

    /** printSummary: the round summaries are built before endRound, the others after it. */
    method PrintSummary() returns (report: Report)
      requires Valid()
      modifies monitors
      ensures Valid()
      ensures report.roundSync == old(SummaryOf(Parts(RoundItems(monitors), Synchronous)))
      ensures report.roundAsync == old(SummaryOf(Parts(RoundItems(monitors), Asynchronous)))
      ensures report.sync == SummaryOf(Parts(PastItems(monitors), Synchronous))
      ensures report.async == SummaryOf(Parts(PastItems(monitors), Asynchronous))
      ensures CountsMatch(report.sync, EventsOf(PastItems(monitors), Synchronous))
      ensures CountsMatch(report.async, EventsOf(PastItems(monitors), Asynchronous))
      ensures AddUp(old(SummaryOf(Parts(PastItems(monitors), Synchronous))), report.roundSync, report.sync)
      ensures AddUp(old(SummaryOf(Parts(PastItems(monitors), Asynchronous))), report.roundAsync, report.async)
      ensures forall i :: 0 <= i < |monitors| ==>
        var m := monitors[i];
        m.past == old(m.past) + old(m.round) && m.round == []
    {
      hide Parts, SummaryOf, EventsOf, CountsMatch, AddUp, NonEmpty, PastItems, RoundItems, Describes;
      ghost var past, round := PastItems(monitors), RoundItems(monitors);
      var roundSync := BuildRoundSummary(Synchronous);
      var roundAsync := BuildRoundSummary(Asynchronous);
      EndRound();
      ghost var now := PastItems(monitors);
      var sync := BuildSummary(Synchronous);
      var async := BuildSummary(Asynchronous);
      NonEmptyAfterEndRound(monitors, Synchronous);
      NonEmptyAfterEndRound(monitors, Asynchronous);
      RoundIsAdded(past, round, now, Synchronous);
      RoundIsAdded(past, round, now, Asynchronous);
      report := Report(sync, async, roundSync, roundAsync);
    }
  }

  lemma CleanIsEmpty(s: Status, events: seq<Event>)
    requires Describes(s, events) && IsClean(s)
    ensures events == []
  {
  }

  lemma RoundIsAdded(past: seq<Item>, round: seq<Item>, now: seq<Item>, operationType: OperationType)
    requires |past| == |round| == |now| && AllDescribed(past) && AllDescribed(round) && AllDescribed(now)
    requires forall i :: 0 <= i < |now| ==>
      && now[i].operationType == past[i].operationType == round[i].operationType
      && now[i].events == past[i].events + round[i].events
    ensures CountsMatch(SummaryOf(Parts(now, operationType)), EventsOf(now, operationType))
    ensures AddUp(SummaryOf(Parts(past, operationType)), SummaryOf(Parts(round, operationType)),
                  SummaryOf(Parts(now, operationType)))
  {
    RoundsJoin(past, round, now, operationType);
    SummaryCounts(past, operationType);
    SummaryCounts(round, operationType);
    SummaryCounts(now, operationType);
  }
}
