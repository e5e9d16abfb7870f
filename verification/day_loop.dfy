/**
 * The day-by-day loop both CLI services run over a resolved date range:
 * render each day from the first to the last inclusive, print a divider
 * between days when asked, and end quietly on an authentication error.
 * Days are Calendar ordinals; stepping past the last representable date
 * raises as Python's date arithmetic does.
 */
module DayLoop {
  import Calendar
  import opened SleepModel

  /** Why a day (or the step to the next day) raised. */
  datatype RunError =
    | LoginRequired
    | OuraAuth
    | SnapshotFailed(error: SleepError)
    | AttributeMissing
    | HeartRateFormat  // the TypeError of `:.0f` on a missing average heart rate
    | DateOverflow

  /** The two errors the loop catches and turns into a graceful exit. */
  predicate IsAuthError(e: RunError) {
    e.LoginRequired? || e.OuraAuth?
  }

  /** What rendering one day did: printed something, or raised. */
  datatype DayResult<T> = Rendered(output: T) | Raise(error: RunError)

  datatype Event<T> = Day(day: int, output: T) | Divider

  datatype Status = Completed | AuthExit | Raised(error: RunError)

  datatype RunOutcome<T> = RunOutcome(events: seq<Event<T>>, status: Status)

  /** What a rendered day contributes: the day, then a divider unless it is the last. */
  function Here<T>(current: int, end: int, divider: bool, x: T): (r: seq<Event<T>>)
    ensures |r| == (if divider && current < end then 2 else 1)
    ensures r[0] == Day(current, x) && (|r| == 2 ==> r[1] == Divider)
  {
    [Day(current, x)] + (if divider && current < end then [Divider] else [])
  }

  /**
   * The loop's output from day `current` on, defined by recursion on the
   * days left: the reference the loop is checked against.
   */
  function Transcript<T>(current: int, end: int, divider: bool, day: int -> DayResult<T>): (r: RunOutcome<T>)
    decreases if current <= end then end - current + 1 else 0
  {
    if current > end then RunOutcome([], Completed)
    else match day(current)
      case Raise(e) => RunOutcome([], if IsAuthError(e) then AuthExit else Raised(e))
      case Rendered(x) =>
        var here := Here(current, end, divider, x);
        if current >= Calendar.MaxOrdinal then RunOutcome(here, Raised(DateOverflow))
        else
          var rest := Transcript(current + 1, end, divider, day);
          RunOutcome(here + rest.events, rest.status)
  }

  /** `SleepJournalService.run` / `SleepSummaryService.run`, with each day's work supplied as `day`. */
  method Run<T>(start: int, end: int, divider: bool, day: int -> DayResult<T>) returns (events: seq<Event<T>>, status: Status)
    requires 1 <= start <= Calendar.MaxOrdinal && 1 <= end <= Calendar.MaxOrdinal
    ensures RunOutcome(events, status) == Transcript(start, end, divider, day)
  {
    events := [];
    status := Completed;
    var current := start;
    while current <= end
      invariant start <= current <= Calendar.MaxOrdinal
      invariant Transcript(start, end, divider, day).events == events + Transcript(current, end, divider, day).events
      invariant Transcript(start, end, divider, day).status == Transcript(current, end, divider, day).status
      decreases end - current
    {
      var r := day(current);
      if r.Raise? {
        TranscriptRaise(current, end, divider, day);
        assert events + [] == events;
        status := if IsAuthError(r.error) then AuthExit else Raised(r.error);
        return;
      }
      var here := Here(current, end, divider, r.output);
      if current == Calendar.MaxOrdinal {
        TranscriptAtLastDate(current, end, divider, day);
        events := events + here;
        status := Raised(DateOverflow);
        return;
      }
      TranscriptStep(current, end, divider, day);
      var rest := Transcript(current + 1, end, divider, day);
      assert events + (here + rest.events) == (events + here) + rest.events;
      events := events + here;
      current := current + 1;
    }
  }

  /** A day that raises ends the transcript with nothing printed for it. */
  lemma TranscriptRaise<T>(current: int, end: int, divider: bool, day: int -> DayResult<T>)
    requires current <= end && day(current).Raise?
    ensures Transcript(current, end, divider, day) ==
              RunOutcome([], if IsAuthError(day(current).error) then AuthExit else Raised(day(current).error))
  {
  }

  /** The last representable date is rendered, and stepping past it raises. */
  lemma TranscriptAtLastDate<T>(current: int, end: int, divider: bool, day: int -> DayResult<T>)
    requires current <= end && current == Calendar.MaxOrdinal && day(current).Rendered?
    ensures Transcript(current, end, divider, day) ==
              RunOutcome(Here(current, end, divider, day(current).output), Raised(DateOverflow))
  {
  }

  /** One rendered day inside the calendar, then the rest of the range. */
  lemma TranscriptStep<T>(current: int, end: int, divider: bool, day: int -> DayResult<T>)
    requires current <= end && current < Calendar.MaxOrdinal && day(current).Rendered?
    ensures var rest := Transcript(current + 1, end, divider, day);
            Transcript(current, end, divider, day) ==
              RunOutcome(Here(current, end, divider, day(current).output) + rest.events, rest.status)
  {
  }

  function Days<T>(events: seq<Event<T>>): (r: seq<int>)
    ensures |r| <= |events|
  {
    if events == [] then []
    else (if events[0].Day? then [events[0].day] else []) + Days(events[1..])
  }

  function Dividers<T>(events: seq<Event<T>>): (n: nat)
    ensures n <= |events|
  {
    if events == [] then 0
    else (if events[0].Divider? then 1 else 0) + Dividers(events[1..])
  }

  lemma {:induction false} CountsDistribute<T>(a: seq<Event<T>>, b: seq<Event<T>>)
    ensures Days(a + b) == Days(a) + Days(b)
    ensures Dividers(a + b) == Dividers(a) + Dividers(b)
  {
    if a == [] {
      assert a + b == b;
    } else {
      assert (a + b)[0] == a[0];
      assert (a + b)[1..] == a[1..] + b;
      CountsDistribute(a[1..], b);
    }
  }

  lemma HereCounts<T>(current: int, end: int, divider: bool, x: T)
    ensures Days(Here(current, end, divider, x)) == [current]
    ensures Dividers(Here(current, end, divider, x)) == if divider && current < end then 1 else 0
  {
    var here := Here(current, end, divider, x);
    if |here| == 2 {
      assert here[1..] == [Divider];
      assert here[1..][1..] == [];
    } else {
      assert here[1..] == [];
    }
  }

  /** The ordinals from `from` to `to` inclusive, ascending. */
  function Range(from: int, to: int): (r: seq<int>)
    ensures |r| == if from <= to then to - from + 1 else 0
    ensures forall i :: 0 <= i < |r| ==> r[i] == from + i
    decreases if from <= to then to - from + 1 else 0
  {
    if from > to then [] else [from] + Range(from + 1, to)
  }

  /** With every day rendered inside the calendar, the run completes and ends on a day. */
  lemma {:induction false} AllRenderedCompletes<T>(current: int, end: int, divider: bool, day: int -> DayResult<T>)
    requires end < Calendar.MaxOrdinal
    requires forall d :: current <= d <= end ==> day(d).Rendered?
    ensures Transcript(current, end, divider, day).status == Completed
    ensures var ev := Transcript(current, end, divider, day).events;
            ev != [] ==> ev[|ev| - 1].Day?
    decreases if current <= end then end - current + 1 else 0
  {
    if current <= end {
      var here := Here(current, end, divider, day(current).output);
      var rest := Transcript(current + 1, end, divider, day);
      AllRenderedCompletes(current + 1, end, divider, day);
      TranscriptStep(current, end, divider, day);
      var ev := here + rest.events;
      if rest.events == [] {
        assert ev == here;
        assert current == end;
      } else {
        assert ev[|ev| - 1] == rest.events[|rest.events| - 1];
      }
    }
  }

  /** With every day rendered inside the calendar, the days shown are the range, ascending. */
  lemma {:induction false} AllRenderedDays<T>(current: int, end: int, divider: bool, day: int -> DayResult<T>)
    requires end < Calendar.MaxOrdinal
    requires forall d :: current <= d <= end ==> day(d).Rendered?
    ensures Days(Transcript(current, end, divider, day).events) == Range(current, end)
    decreases if current <= end then end - current + 1 else 0
  {
    if current <= end {
      var here := Here(current, end, divider, day(current).output);
      var rest := Transcript(current + 1, end, divider, day);
      AllRenderedDays(current + 1, end, divider, day);
      TranscriptStep(current, end, divider, day);
      CountsDistribute(here, rest.events);
      HereCounts(current, end, divider, day(current).output);
      assert Range(current, end) == [current] + Range(current + 1, end);
    }
  }

  /** With every day rendered inside the calendar, a divider sits between each pair of days. */
  lemma {:induction false} AllRenderedDividers<T>(current: int, end: int, divider: bool, day: int -> DayResult<T>)
    requires end < Calendar.MaxOrdinal
    requires forall d :: current <= d <= end ==> day(d).Rendered?
    ensures Dividers(Transcript(current, end, divider, day).events) == if divider && current <= end then end - current else 0
    decreases if current <= end then end - current + 1 else 0
  {
    if current <= end {
      var here := Here(current, end, divider, day(current).output);
      var rest := Transcript(current + 1, end, divider, day);
      AllRenderedDividers(current + 1, end, divider, day);
      TranscriptStep(current, end, divider, day);
      CountsDistribute(here, rest.events);
      HereCounts(current, end, divider, day(current).output);
    }
  }

  /**
   * When every day renders and the range stays inside the calendar, the
   * loop completes, visits each day once in ascending order, and (with the
   * divider on) prints one divider fewer than days, none after the last.
   */
  lemma EveryDayVisitedInOrder<T>(current: int, end: int, divider: bool, day: int -> DayResult<T>)
    requires end < Calendar.MaxOrdinal
    requires forall d :: current <= d <= end ==> day(d).Rendered?
    ensures Transcript(current, end, divider, day).status == Completed
    ensures Days(Transcript(current, end, divider, day).events) == Range(current, end)
    ensures Dividers(Transcript(current, end, divider, day).events) == if divider && current <= end then end - current else 0
    ensures var ev := Transcript(current, end, divider, day).events;
            ev != [] ==> ev[|ev| - 1].Day?
  {
    AllRenderedCompletes(current, end, divider, day);
    AllRenderedDays(current, end, divider, day);
    AllRenderedDividers(current, end, divider, day);
  }

  /**
   * The first day that raises ends the loop: the days before it are all
   * shown, and the status tells an authentication exit from a crash.
   */
  lemma {:induction false} StopsAtFirstFailure<T>(current: int, end: int, divider: bool, day: int -> DayResult<T>, bad: int)
    requires current <= bad <= end < Calendar.MaxOrdinal
    requires forall d :: current <= d < bad ==> day(d).Rendered?
    requires day(bad).Raise?
    ensures Days(Transcript(current, end, divider, day).events) == Range(current, bad - 1)
    ensures Transcript(current, end, divider, day).status ==
              if IsAuthError(day(bad).error) then AuthExit else Raised(day(bad).error)
    decreases end - current
  {
    if current < bad {
      var here := Here(current, end, divider, day(current).output);
      var rest := Transcript(current + 1, end, divider, day);
      StopsAtFirstFailure(current + 1, end, divider, day, bad);
      TranscriptStep(current, end, divider, day);
      CountsDistribute(here, rest.events);
      HereCounts(current, end, divider, day(current).output);
      assert Range(current, bad - 1) == [current] + Range(current + 1, bad - 1);
    } else {
      TranscriptRaise(current, end, divider, day);
    }
  }

  /**
   * A range ending on the last representable date renders every day and
   * then raises, because stepping past that date overflows.
   */
  lemma {:induction false} LastDateOverflows<T>(current: int, divider: bool, day: int -> DayResult<T>)
    requires 1 <= current <= Calendar.MaxOrdinal
    requires forall d :: current <= d <= Calendar.MaxOrdinal ==> day(d).Rendered?
    ensures Transcript(current, Calendar.MaxOrdinal, divider, day).status == Raised(DateOverflow)
    ensures Days(Transcript(current, Calendar.MaxOrdinal, divider, day).events) == Range(current, Calendar.MaxOrdinal)
    decreases Calendar.MaxOrdinal - current
  {
    var end := Calendar.MaxOrdinal;
    var here := Here(current, end, divider, day(current).output);
    assert Days(here) == [current] by {
      if |here| == 2 {
        assert here[1..] == [Divider];
      }
    }
    if current < end {
      var rest := Transcript(current + 1, end, divider, day);
      LastDateOverflows(current + 1, divider, day);
      TranscriptStep(current, end, divider, day);
      CountsDistribute(here, rest.events);
    } else {
      assert Range(current, end) == [current];
    }
  }
}
