/** Operation statistics (src/frontend/Monitor.hpp): a monitor counts the operations of the current
    round and merges them, round by round, into its aggregated figures. Times are exact reals. */
module Monitors {

  datatype Outcome = Succeeded | Failed | Errored

  /** A completed operation and how long it took, in milliseconds. */
  datatype Event = Event(millis: int, outcome: Outcome)

  function Seconds(event: Event): real { event.millis as real / 1000.0 }

  datatype Status = Status(
    completed: int, failures: int, errors: int, total: real, totalSquare: real, min: real, max: real)

  const CLEAN := Status(0, 0, 0, 0.0, 0.0, 0.0, 0.0)

  predicate IsClean(s: Status) { s.completed == 0 }

  // ----- the meaning of the figures -----

  function CountOf(events: seq<Event>, outcome: Outcome): int {
    if events == [] then 0
    else CountOf(events[..|events| - 1], outcome) + (if events[|events| - 1].outcome == outcome then 1 else 0)
  }

  function SumTimes(events: seq<Event>): real {
    if events == [] then 0.0 else SumTimes(events[..|events| - 1]) + Seconds(events[|events| - 1])
  }

  function Mul(x: real, y: real): real { x * y }

  function Square(x: real): real { x * x }

  function SumSquares(events: seq<Event>): real {
    if events == [] then 0.0 else SumSquares(events[..|events| - 1]) + Square(Seconds(events[|events| - 1]))
  }

  predicate IsLeast(time: real, events: seq<Event>) {
    && (exists i :: 0 <= i < |events| && Seconds(events[i]) == time)
    && (forall i :: 0 <= i < |events| ==> time <= Seconds(events[i]))
  }

  predicate IsGreatest(time: real, events: seq<Event>) {
    && (exists i :: 0 <= i < |events| && Seconds(events[i]) == time)
    && (forall i :: 0 <= i < |events| ==> Seconds(events[i]) <= time)
  }

  /** The counts, the sums and the extremes are those of the events. */
  predicate Describes(s: Status, events: seq<Event>) {
    && s.completed == |events| && s.failures == CountOf(events, Failed) && s.errors == CountOf(events, Errored)
    && s.total == SumTimes(events) && s.totalSquare == SumSquares(events)
    && if events == [] then s.min == 0.0 && s.max == 0.0 else IsLeast(s.min, events) && IsGreatest(s.max, events)
  }

  /** The figures are determined by the events. */
  lemma FiguresAreUnique(s: Status, t: Status, events: seq<Event>)
    requires Describes(s, events) && Describes(t, events)
    ensures s == t
  {
    if events != [] {
      var i :| 0 <= i < |events| && Seconds(events[i]) == s.min;
      var j :| 0 <= j < |events| && Seconds(events[j]) == t.min;
      var k :| 0 <= k < |events| && Seconds(events[k]) == s.max;
      var l :| 0 <= l < |events| && Seconds(events[l]) == t.max;
      assert s.min <= Seconds(events[j]) && t.min <= Seconds(events[i]);
      assert Seconds(events[l]) <= s.max && Seconds(events[k]) <= t.max;
    }
  }

  lemma {:induction false} SumsConcat(a: seq<Event>, b: seq<Event>)
    ensures forall outcome :: CountOf(a + b, outcome) == CountOf(a, outcome) + CountOf(b, outcome)
    ensures SumTimes(a + b) == SumTimes(a) + SumTimes(b)
    ensures SumSquares(a + b) == SumSquares(a) + SumSquares(b)
    decreases |b|
  {
    if b == [] {
      assert a + b == a;
    } else {
      var m := |b| - 1;
      assert (a + b)[..|a + b| - 1] == a + b[..m];
      SumsConcat(a, b[..m]);
    }
  }

  function Min(x: real, y: real): real { if y < x then y else x }

  function Max(x: real, y: real): real { if y > x then y else x }

  lemma ExtremesConcat(a: seq<Event>, b: seq<Event>, x: real, y: real)
    ensures IsLeast(x, a) && IsLeast(y, b) ==> IsLeast(Min(x, y), a + b)
    ensures IsGreatest(x, a) && IsGreatest(y, b) ==> IsGreatest(Max(x, y), a + b)
  {
    var ab := a + b;
    assert forall i :: 0 <= i < |a| ==> ab[i] == a[i];
    assert forall i :: 0 <= i < |b| ==> ab[|a| + i] == b[i];
  }

  // ----- the operations on the figures -----

  /** checkUpdateMinTime and checkUpdateMaxTime. */
  function Limited(s: Status, least: real, greatest: real): Status {
    s.(min := if IsClean(s) || least < s.min then least else s.min,
       max := if IsClean(s) || greatest > s.max then greatest else s.max)
  }

  /** mergeIn. */
  function MergedIn(s: Status, other: Status): Status {
    Limited(s, other.min, other.max).(
      completed := s.completed + other.completed,
      failures := s.failures + other.failures,
      errors := s.errors + other.errors,
      total := s.total + other.total,
      totalSquare := s.totalSquare + other.totalSquare)
  }

  /** Figures of no operation have the extremes 0.0, so that merging them in is right only if they
      change no extreme. */
  predicate MayMerge(s: Status, other: Status) {
    !IsClean(other) || IsClean(s) || s.min <= 0.0 <= s.max
  }

  /** Merging gives the figures of all events together, exactly if a round without operations is
      merged only into figures that are empty too or span 0.0. */
  lemma MergeIsExact(s: Status, x: seq<Event>, other: Status, y: seq<Event>)
    requires Describes(s, x) && Describes(other, y)
    ensures Describes(MergedIn(s, other), x + y) <==> MayMerge(s, other)
  {
    if x == [] {
      assert x + y == y;
      assert Describes(MergedIn(s, other), y);
    } else if y == [] {
      assert x + y == x;
      MergeNothing(s, x, other);
    } else {
      MergeBoth(s, x, other, y);
    }
  }

  lemma MergeBoth(s: Status, x: seq<Event>, other: Status, y: seq<Event>)
    requires Describes(s, x) && Describes(other, y) && x != [] && y != []
    ensures Describes(MergedIn(s, other), x + y) && MayMerge(s, other)
  {
    SumsConcat(x, y);
    ExtremesConcat(x, y, s.min, other.min);
    ExtremesConcat(x, y, s.max, other.max);
    hide CountOf, SumTimes, SumSquares, IsLeast, IsGreatest;
  }

  lemma MergeNothing(s: Status, x: seq<Event>, other: Status)
    requires Describes(s, x) && Describes(other, []) && x != []
    ensures Describes(MergedIn(s, other), x) <==> MayMerge(s, other)
  {
    if Describes(MergedIn(s, other), x) {
      FiguresAreUnique(s, MergedIn(s, other), x);
    }
    assert CountOf([], Failed) == CountOf([], Errored) == 0 && SumTimes([]) == SumSquares([]) == 0.0;
    hide CountOf, SumTimes, SumSquares, IsLeast, IsGreatest;
  }

  /** The figures of a single operation. */
  function Single(event: Event): Status {
    var time := Seconds(event);
    Status(1, if event.outcome.Failed? then 1 else 0, if event.outcome.Errored? then 1 else 0,
           time, Square(time), time, time)
  }

  lemma SingleDescribes(event: Event)
    ensures Describes(Single(event), [event])
  {
    assert [event][..0] == [];
    assert Seconds([event][0]) == Seconds(event);
  }

  /** An operation of one second, and a digest of an empty round: the minimum becomes 0.0. */
  lemma EmptyDigestSpoilsMinimum()
    ensures var event := Event(1000, Succeeded);
      && Describes(Single(event), [event]) && Single(event).min == 1.0
      && MergedIn(Single(event), CLEAN).min == 0.0 && !Describes(MergedIn(Single(event), CLEAN), [event] + [])
  {
    SingleDescribes(Event(1000, Succeeded));
    MergeIsExact(Single(Event(1000, Succeeded)), [Event(1000, Succeeded)], CLEAN, []);
  }

  // ----- the monitor -----

  datatype OperationType = Synchronous | Asynchronous | Stub

  class Monitor {
    const operationType: OperationType
    var current: Status
    var aggregated: Status
    ghost var round: seq<Event> // since the last digest
    ghost var past: seq<Event>  // before it

    /** The figures are those of the registered operations. */
    ghost predicate Valid()
      reads this
    {
      Describes(current, round) && Describes(aggregated, past)
    }

    constructor (operationType: OperationType)
      ensures Valid() && this.operationType == operationType && round == past == []
    {
      this.operationType := operationType;
      current, aggregated, round, past := CLEAN, CLEAN, [], [];
    }

    method UpdateTotalTime(seconds: real)
      modifies this`current
      ensures current == old(current).(total := old(current).total + seconds,
                                       totalSquare := old(current).totalSquare + Square(seconds))
    {
      current := current.(total := current.total + seconds);
      current := current.(totalSquare := current.totalSquare + Square(seconds));
    }

    method UpdateTimeLimits(seconds: real)
      modifies this`current
      ensures current == Limited(old(current), seconds, seconds)
    {
      if IsClean(current) || seconds > current.max {
        current := current.(max := seconds);
      }
      if IsClean(current) || seconds < current.min {
        current := current.(min := seconds);
      }
    }

    /** registerSuccess. */
    method RegisterSuccess(millis: int)
      requires Valid()
      modifies this`current, this`round
      ensures Valid() && round == old(round) + [Event(millis, Succeeded)]
      ensures current.completed == old(current).completed + 1
      ensures current.failures == old(current).failures && current.errors == old(current).errors
      ensures current.total == old(current).total + millis as real / 1000.0
    {
      hide Describes, Square;
      UpdateTotalTime(millis as real / 1000.0);
      UpdateTimeLimits(millis as real / 1000.0);
      current := current.(completed := current.completed + 1);
      Registered(old(current), round, Event(millis, Succeeded), current);
      round := round + [Event(millis, Succeeded)];
    }

    /** registerFailure. */
    method RegisterFailure(millis: int)
      requires Valid()
      modifies this`current, this`round
      ensures Valid() && round == old(round) + [Event(millis, Failed)]
      ensures current.completed == old(current).completed + 1
      ensures current.failures == old(current).failures + 1 && current.errors == old(current).errors
      ensures current.total == old(current).total + millis as real / 1000.0
    {
      hide Describes, Square;
      UpdateTotalTime(millis as real / 1000.0);
      UpdateTimeLimits(millis as real / 1000.0);
      current := current.(completed := current.completed + 1);
      current := current.(failures := current.failures + 1);
      Registered(old(current), round, Event(millis, Failed), current);
      round := round + [Event(millis, Failed)];
    }

    /** registerError. */
    method RegisterError(millis: int)
      requires Valid()
      modifies this`current, this`round
      ensures Valid() && round == old(round) + [Event(millis, Errored)]
      ensures current.completed == old(current).completed + 1
      ensures current.failures == old(current).failures && current.errors == old(current).errors + 1
      ensures current.total == old(current).total + millis as real / 1000.0
    {
      hide Describes, Square;
      UpdateTotalTime(millis as real / 1000.0);
      UpdateTimeLimits(millis as real / 1000.0);
      current := current.(completed := current.completed + 1);
      current := current.(errors := current.errors + 1);
      Registered(old(current), round, Event(millis, Errored), current);
      round := round + [Event(millis, Errored)];
    }

    predicate IsUpdated()
      reads this
    {
      !IsClean(current)
    }

    predicate IsEmpty()
      reads this
    {
      IsClean(current) && IsClean(aggregated)
    }

    /** digestRound: the round joins the past; the figures stay right exactly if it may be merged. */
    method DigestRound()
      requires Valid()
      modifies this
      ensures past == old(past) + old(round) && round == []
      ensures aggregated == MergedIn(old(aggregated), old(current)) && current == CLEAN
      ensures Valid() <==> MayMerge(old(aggregated), old(current))
    {
      MergeIsExact(aggregated, past, current, round);
      aggregated := MergedIn(aggregated, current);
      current := CLEAN;
      past, round := past + round, [];
    }
  }

  /** Registering is merging in a single operation. */
  lemma Registered(s: Status, events: seq<Event>, event: Event, now: Status)
    requires Describes(s, events) && now == MergedIn(s, Single(event))
    ensures Describes(now, events + [event])
  {
    SingleDescribes(event);
    MergeIsExact(s, events, Single(event), [event]);
  }

  // ----- rounds -----

  /** What happens to a monitor. */
  datatype Action = Register(event: Event) | RoundEnds

  datatype Figures = Figures(current: Status, aggregated: Status)

  function Step(f: Figures, a: Action): Figures {
    match a
    case Register(event) => f.(current := MergedIn(f.current, Single(event)))
    case RoundEnds =>
      if IsClean(f.current) then f else Figures(CLEAN, MergedIn(f.aggregated, f.current))
  }

  function Run(actions: seq<Action>): Figures {
    if actions == [] then Figures(CLEAN, CLEAN) else Step(Run(actions[..|actions| - 1]), actions[|actions| - 1])
  }

  /** All operations registered, whatever the rounds. */
  function History(actions: seq<Action>): seq<Event> {
    if actions == [] then []
    else
      var last := actions[|actions| - 1];
      History(actions[..|actions| - 1]) + (if last.Register? then [last.event] else [])
  }

  /** The operations before the last digest, and those after it. */
  ghost predicate Splits(f: Figures, actions: seq<Action>, past: seq<Event>, round: seq<Event>) {
    past + round == History(actions) && Describes(f.aggregated, past) && Describes(f.current, round)
  }

  lemma {:induction false} RunSplits(actions: seq<Action>) returns (past: seq<Event>, round: seq<Event>)
    ensures Splits(Run(actions), actions, past, round)
  {
    if actions == [] {
      past, round := [], [];
    } else {
      var before, last := actions[..|actions| - 1], actions[|actions| - 1];
      past, round := RunSplits(before);
      hide Describes, MergedIn;
      match last
      case Register(event) =>
        Registered(Run(before).current, round, event, Run(actions).current);
        assert past + (round + [event]) == History(actions);
        round := round + [event];
      case RoundEnds =>
        Digested(Run(before), past, round);
        if !IsClean(Run(before).current) {
          past, round := past + round, [];
        }
        assert past + round == History(actions);
    }
  }

  lemma Digested(f: Figures, past: seq<Event>, round: seq<Event>)
    requires Describes(f.aggregated, past) && Describes(f.current, round)
    ensures !IsClean(f.current) ==> Describes(MergedIn(f.aggregated, f.current), past + round)
    ensures Describes(CLEAN, [])
  {
    MergeIsExact(f.aggregated, past, f.current, round);
  }

  /** The figures of everything so far. */
  function Overall(f: Figures): Status {
    if IsClean(f.current) then f.aggregated else MergedIn(f.aggregated, f.current)
  }

  /** Wherever the rounds end, the overall figures are those of all operations. */
  lemma RoundsDoNotMatter(actions: seq<Action>)
    ensures Describes(Overall(Run(actions)), History(actions))
  {
    var past, round := RunSplits(actions);
    var f := Run(actions);
    MergeIsExact(f.aggregated, past, f.current, round);
    if IsClean(f.current) {
      assert past + round == past;
    }
  }

  /** Hence two monitors that registered the same operations agree, whatever their rounds were. */
  lemma SameOperationsSameFigures(actions: seq<Action>, others: seq<Action>)
    requires History(actions) == History(others)
    ensures Overall(Run(actions)) == Overall(Run(others))
  {
    RoundsDoNotMatter(actions);
    RoundsDoNotMatter(others);
    FiguresAreUnique(Overall(Run(actions)), Overall(Run(others)), History(actions));
  }

  // ----- average and standard deviation -----

  /** computeAverage. */
  function Average(count: int, total: real): real { if count == 0 then 0.0 else total / count as real }

  /** The number under the root. */
  function Spread(s: Status): real { Mul(s.completed as real, s.totalSquare) - Square(s.total) }

  /** computeStandardDeviation, given the root of Spread(s) if that is positive. */
  function StandardDeviation(s: Status, root: real): real {
    if s.completed == 0 || s.completed == 1 then 0.0
    else if Spread(s) <= 0.0 then 0.0
    else (1.0 / s.completed as real) * root
  }

  /** The sum of the squared distances to x. */
  function SumAround(events: seq<Event>, x: real): real {
    if events == [] then 0.0
    else SumAround(events[..|events| - 1], x) + Square(Seconds(events[|events| - 1]) - x)
  }

  /** The sum of the squared distances of all pairs. */
  function PairSum(events: seq<Event>): real {
    if events == [] then 0.0
    else
      var before := events[..|events| - 1];
      PairSum(before) + SumAround(before, Seconds(events[|events| - 1]))
  }

  lemma {:induction false} AroundIs(events: seq<Event>, x: real)
    ensures SumAround(events, x)
         == SumSquares(events) - 2.0 * Mul(x, SumTimes(events)) + Mul(|events| as real, Square(x))
  {
    hide Square, Mul;
    if events != [] {
      var m := |events| - 1;
      AroundIs(events[..m], x);
      AroundStep(m as real, SumTimes(events[..m]), Seconds(events[m]), x);
    } else {
      NothingAround(x);
    }
  }

  lemma NothingAround(x: real)
    ensures Mul(x, 0.0) == 0.0 && Mul(0.0, Square(x)) == 0.0 && Mul(0.0, 0.0) == 0.0 && Square(0.0) == 0.0
  {
  }

  lemma AroundStep(n: real, total: real, t: real, x: real)
    ensures Mul(x, total + t) == Mul(x, total) + Mul(x, t)
    ensures Mul(n + 1.0, Square(x)) == Mul(n, Square(x)) + Square(x)
    ensures Square(t - x) == Square(t) - 2.0 * Mul(x, t) + Square(x)
  {
  }

  lemma {:induction false} SpreadIsPairSum(events: seq<Event>)
    ensures Mul(|events| as real, SumSquares(events)) - Square(SumTimes(events)) == PairSum(events)
  {
    hide Square, Mul;
    if events != [] {
      var m := |events| - 1;
      var t := Seconds(events[m]);
      SpreadIsPairSum(events[..m]);
      AroundIs(events[..m], t);
      SpreadStep(m as real, SumTimes(events[..m]), SumSquares(events[..m]), t);
    } else {
      NothingAround(0.0);
    }
  }

  lemma SpreadStep(n: real, total: real, squares: real, t: real)
    ensures Mul(n + 1.0, squares + Square(t)) - Square(total + t)
         == (Mul(n, squares) - Square(total)) + (squares - 2.0 * Mul(t, total) + Mul(n, Square(t)))
  {
    assert Mul(n + 1.0, squares + Square(t)) == n * squares + n * Square(t) + squares + Square(t);
    assert Square(total + t) == Square(total) + 2.0 * (t * total) + Square(t);
  }

  predicate AllEqual(events: seq<Event>) {
    forall i, j :: 0 <= i < j < |events| ==> Seconds(events[i]) == Seconds(events[j])
  }

  lemma {:induction false} AroundSign(events: seq<Event>, x: real)
    ensures SumAround(events, x) >= 0.0
    ensures SumAround(events, x) == 0.0 <==> forall i :: 0 <= i < |events| ==> Seconds(events[i]) == x
  {
    if events != [] {
      var m := |events| - 1;
      AroundSign(events[..m], x);
      SquareSign(Seconds(events[m]) - x);
      assert forall i :: 0 <= i < m ==> events[..m][i] == events[i];
    }
  }

  lemma SquareSign(x: real)
    ensures Square(x) >= 0.0 && (Square(x) == 0.0 <==> x == 0.0)
  {
    if x > 0.0 {
      ProductIsPositive(x, x);
    } else if x < 0.0 {
      ProductIsPositive(-x, -x);
      assert Mul(-x, -x) == Square(x);
    }
  }

  lemma ProductIsPositive(x: real, y: real)
    requires x > 0.0 && y > 0.0
    ensures Mul(x, y) > 0.0
  {
  }

  /** The sum over the pairs is never negative, and zero exactly if all times are equal. */
  lemma {:induction false} PairSumSign(events: seq<Event>)
    ensures PairSum(events) >= 0.0
    ensures PairSum(events) == 0.0 <==> AllEqual(events)
  {
    if events != [] {
      var m := |events| - 1;
      PairSumSign(events[..m]);
      AroundSign(events[..m], Seconds(events[m]));
      assert forall i :: 0 <= i < m ==> events[..m][i] == events[i];
    }
  }

  /** Only floating-point rounding could make the guard before the root more than a test for equal
      times: the number under the root is the sum over all pairs of the squared differences. */
  lemma GuardIsExact(s: Status, events: seq<Event>)
    requires Describes(s, events)
    ensures Spread(s) == PairSum(events) >= 0.0
    ensures Spread(s) <= 0.0 <==> AllEqual(events)
  {
    SpreadIsPairSum(events);
    PairSumSign(events);
  }

  lemma ProductIsNotNegative(x: real, y: real)
    requires x >= 0.0 && y >= 0.0
    ensures Mul(x, y) >= 0.0
  {
    if x == 0.0 || y == 0.0 {
      assert Mul(x, y) == 0.0;
    } else {
      ProductIsPositive(x, y);
    }
  }

  lemma {:induction false} TotalBetween(events: seq<Event>, least: real, greatest: real)
    requires forall i :: 0 <= i < |events| ==> least <= Seconds(events[i]) <= greatest
    ensures Mul(|events| as real, least) <= SumTimes(events) <= Mul(|events| as real, greatest)
    ensures SumSquares(events)
         <= Mul(least + greatest, SumTimes(events)) - Mul(|events| as real, Mul(least, greatest))
  {
    if events != [] {
      hide Square, Mul, Seconds;
      var m := |events| - 1;
      var before := events[..m];
      assert forall i :: 0 <= i < m ==> before[i] == events[i];
      TotalBetween(before, least, greatest);
      BetweenStep(Seconds(events[m]), least, greatest, m as real, SumTimes(before));
    }
  }

  lemma BetweenStep(t: real, least: real, greatest: real, n: real, total: real)
    requires least <= t <= greatest
    ensures Square(t) <= Mul(least + greatest, t) - Mul(least, greatest)
    ensures Mul(least + greatest, total + t) == Mul(least + greatest, total) + Mul(least + greatest, t)
    ensures Mul(n + 1.0, Mul(least, greatest)) == Mul(n, Mul(least, greatest)) + Mul(least, greatest)
    ensures Mul(n + 1.0, least) == Mul(n, least) + least && Mul(n + 1.0, greatest) == Mul(n, greatest) + greatest
  {
    ProductIsNotNegative(t - least, greatest - t);
    assert Mul(t - least, greatest - t) == (least + greatest) * t - least * greatest - Square(t);
  }

  /** The average lies between the extremes. */
  lemma AverageBetween(s: Status, events: seq<Event>)
    requires Describes(s, events) && events != []
    ensures s.min <= Average(s.completed, s.total) <= s.max
    ensures Mul(|events| as real, Average(s.completed, s.total)) == SumTimes(events)
  {
    TotalBetween(events, s.min, s.max);
    hide SumTimes, SumSquares, IsLeast, IsGreatest, Mul;
    DivideBetween(s.total, |events| as real, s.min, s.max);
  }

  lemma ProductIsNegative(x: real, y: real)
    requires x > 0.0 && y < 0.0
    ensures Mul(x, y) < 0.0
  {
    ProductIsPositive(x, -y);
    assert Mul(x, -y) == -Mul(x, y);
  }

  lemma PositiveFactor(n: real, x: real)
    requires n > 0.0 && Mul(n, x) >= 0.0
    ensures x >= 0.0
  {
    if x < 0.0 {
      ProductIsNegative(n, x);
    }
  }

  lemma DivideBetween(total: real, n: real, least: real, greatest: real)
    requires n > 0.0 && Mul(n, least) <= total <= Mul(n, greatest)
    ensures least <= total / n <= greatest && Mul(n, total / n) == total
  {
    var q := total / n;
    assert Mul(n, q) == total;
    assert Mul(n, q - least) == total - n * least;
    assert Mul(n, greatest - q) == n * greatest - total;
    PositiveFactor(n, q - least);
    PositiveFactor(n, greatest - q);
  }

  lemma PopoviciuStep(n: real, total: real, squares: real, least: real, greatest: real)
    requires n >= 0.0 && squares <= Mul(least + greatest, total) - Mul(n, Mul(least, greatest))
    ensures 4.0 * (Mul(n, squares) - Square(total)) <= Square(Mul(n, greatest - least))
  {
    var c := n * (least + greatest);
    ScaledBound(n, squares, least + greatest, total, least * greatest);
    assert Square(2.0 * total - c) == 4.0 * Square(total) - 4.0 * Mul(c, total) + Square(c);
    hide Square, Mul;
    SquareSign(2.0 * total - c);
    SquareOfDifference(n, least, greatest);
  }

  lemma ScaledBound(n: real, squares: real, sum: real, total: real, product: real)
    requires n >= 0.0 && squares <= sum * total - n * product
    ensures Mul(n, squares) <= Mul(n * sum, total) - (n * n) * product
  {
    ProductIsNotNegative(n, sum * total - n * product - squares);
    assert Mul(n, sum * total - n * product - squares) == n * (sum * total) - n * (n * product) - n * squares;
    assert n * (sum * total) == (n * sum) * total && n * (n * product) == (n * n) * product;
  }

  lemma SquareOfDifference(n: real, x: real, y: real)
    ensures Square(n * (x + y)) - 4.0 * ((n * n) * (x * y)) == Square(Mul(n, y - x))
  {
    assert Square(n * (x + y)) == (n * n) * Square(x + y);
    assert Square(n * (y - x)) == (n * n) * Square(y - x);
    assert Square(x + y) - 4.0 * (x * y) == Square(y - x);
    assert (n * n) * (Square(x + y) - 4.0 * (x * y)) == (n * n) * Square(x + y) - 4.0 * ((n * n) * (x * y));
  }

  lemma SquareGrows(a: real, b: real)
    requires a > b >= 0.0
    ensures Square(a) > Square(b)
  {
    ProductIsPositive(a - b, a + b);
    assert Mul(a - b, a + b) == Square(a) - Square(b);
  }

  lemma RootsCompare(a: real, b: real)
    requires b >= 0.0 && Square(a) <= Square(b)
    ensures a <= b
  {
    if a > b {
      SquareGrows(a, b);
    }
  }

  lemma DeviationSquared(s: Status, root: real)
    requires s.completed >= 1 && Spread(s) >= 0.0
    requires s.completed == 1 ==> Spread(s) <= 0.0
    requires Spread(s) > 0.0 ==> root >= 0.0 && Square(root) == Spread(s)
    ensures var d := StandardDeviation(s, root);
      d >= 0.0 && Square(Mul(s.completed as real, d)) == Spread(s) && (d == 0.0 <==> Spread(s) <= 0.0)
  {
    var n, d := s.completed as real, StandardDeviation(s, root);
    hide Spread;
    if Spread(s) > 0.0 {
      SquareSign(root);
      Reciprocal(n, root);
    } else {
      NothingAround(n);
    }
  }

  lemma Reciprocal(n: real, root: real)
    requires n > 0.0 && root > 0.0
    ensures (1.0 / n) * root > 0.0 && Mul(n, (1.0 / n) * root) == root
  {
    var r := 1.0 / n;
    assert n * r == 1.0;
    PositiveFactor(n, r);
    ProductIsPositive(r, root);
    assert n * (r * root) == (n * r) * root;
  }

  lemma AroundAverage(n: real, total: real, squares: real)
    requires n > 0.0
    ensures Mul(n, squares - 2.0 * Mul(total / n, total) + Mul(n, Square(total / n)))
         == Mul(n, squares) - Square(total)
  {
    var a := total / n;
    assert n * a == total;
    assert n * (2.0 * (a * total)) == 2.0 * ((n * a) * total);
    assert n * (n * Square(a)) == Square(n * a);
  }

  lemma DeviationBelow(n: real, d: real, width: real, spread: real)
    requires n > 0.0 && d >= 0.0 && width >= 0.0
    requires Square(Mul(n, d)) == spread && 4.0 * spread <= Square(Mul(n, width))
    ensures 2.0 * d <= width
  {
    ProductIsNotNegative(n, width);
    assert Square(2.0 * Mul(n, d)) == 4.0 * spread;
    RootsCompare(2.0 * Mul(n, d), Mul(n, width));
    assert Mul(n, width - 2.0 * d) == n * width - 2.0 * (n * d);
    PositiveFactor(n, width - 2.0 * d);
  }

  lemma CancelFactor(n: real, d: real, around: real)
    requires n > 0.0 && Square(Mul(n, d)) == Mul(n, around)
    ensures Mul(n, Square(d)) == around
  {
    assert Square(Mul(n, d)) == n * (n * Square(d));
    assert Mul(n, n * Square(d) - around) == 0.0;
    PositiveFactor(n, n * Square(d) - around);
    assert Mul(n, around - n * Square(d)) == 0.0;
    PositiveFactor(n, around - n * Square(d));
  }

  /** The deviation is the population standard deviation, that is, its square is the mean squared
      distance to the average; it is zero exactly if all times are equal, and at most half the
      distance between the extremes. */
  lemma DeviationIsRight(s: Status, events: seq<Event>, root: real)
    requires Describes(s, events) && events != []
    requires Spread(s) > 0.0 ==> root >= 0.0 && Square(root) == Spread(s)
    ensures var d := StandardDeviation(s, root);
      && d >= 0.0
      && Mul(|events| as real, Square(d)) == SumAround(events, Average(s.completed, s.total))
      && (d == 0.0 <==> AllEqual(events))
      && 2.0 * d <= s.max - s.min
  {
    var n := |events| as real;
    var d := StandardDeviation(s, root);
    GuardIsExact(s, events);
    TotalBetween(events, s.min, s.max);
    AroundIs(events, s.total / n);
    assert s.min <= s.max && s.total == SumTimes(events) && s.totalSquare == SumSquares(events);
    assert |events| == 1 ==> AllEqual(events);
    hide Describes, PairSum, SumAround, SumTimes, SumSquares, AllEqual, Mul, Square, StandardDeviation;
    AroundAverage(n, s.total, s.totalSquare);
    PopoviciuStep(n, s.total, s.totalSquare, s.min, s.max);
    assert Spread(s) == Mul(n, s.totalSquare) - Square(s.total);
    hide Spread;
    DeviationSquared(s, root);
    CancelFactor(n, d, SumAround(events, s.total / n));
    DeviationBelow(n, d, s.max - s.min, Spread(s));
  }
}
