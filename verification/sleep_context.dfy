/**
 * `SleepContextBuilder.build`: turning a named view ("today", "yesterday",
 * "week", "month") or an explicit start/end date into an inclusive range of
 * day ordinals. The current date, the configured selectors and the ISO
 * date parser are parameters.
 */
module SleepContextBuilder {
  import opened Wrappers
  import opened Calendar

  datatype Mode = ViewMode | DateMode

  datatype SleepContext = SleepContext(mode: Mode, view: Option<string>, start: int, end: int, divider: bool)

  datatype ContextError =
    | UnsupportedView(view: string)
    | StartAfterEnd
    | InvalidIsoDate(raw: string)
    | StartDateMissing
    | DateOverflow
    | YearOutOfRange

  /** "week": Monday through Sunday of the week holding `o`. */
  function WeekRange(o: int): (r: Result<(int, int), ContextError>)
    requires 1 <= o <= MaxOrdinal
    ensures r.Success? <==> o - Weekday(o) + 6 <= MaxOrdinal
    ensures r.Failure? ==> r.error == DateOverflow
    ensures r.Success? ==> && 1 <= r.value.0 && r.value.1 <= MaxOrdinal
                           && Weekday(r.value.0) == 0 && r.value.1 - r.value.0 == 6
                           && r.value.0 <= o <= r.value.1
  {
    MondayOnOrBefore(o);
    var start := o - Weekday(o);
    if start + 6 > MaxOrdinal then Failure(DateOverflow) else Success((start, start + 6))
  }

  /**
   * "month": the first of the month through the day before the first of the
   * next month; in December the next month lies in a year that may not exist.
   */
  function MonthRange(today: Date): (r: Result<(int, int), ContextError>)
    requires Valid(today)
    ensures r.Success? <==> !(today.month == 12 && today.year == MaxYear)
    ensures r.Failure? ==> r.error == YearOutOfRange
    ensures r.Success? ==> && r.value.0 == Ordinal(Date(today.year, today.month, 1))
                           && r.value.1 == Ordinal(Date(today.year, today.month, DaysInMonth(today.year, today.month)))
                           && r.value.0 <= Ordinal(today) <= r.value.1
                           && 1 <= r.value.0 && r.value.1 <= MaxOrdinal
  {
    var first := Date(today.year, today.month, 1);
    var last := Date(today.year, today.month, DaysInMonth(today.year, today.month));
    OrdinalAtMost(last);
    WithinMonth(today);
    if today.month == 12 then
      if today.year + 1 > MaxYear then Failure(YearOutOfRange)
      else
        NextMonthStart(today.year, 12);
        Success((Ordinal(first), Ordinal(Date(today.year + 1, 1, 1)) - 1))
    else
      NextMonthStart(today.year, today.month);
      Success((Ordinal(first), Ordinal(Date(today.year, today.month + 1, 1)) - 1))
  }

  const Views: set<string> := {"today", "yesterday", "week", "month"}

  /** The range a named view covers, relative to `today`. */
  function ResolveView(view: string, today: Date): (r: Result<(int, int), ContextError>)
    requires Valid(today)
    ensures r.Success? ==> 1 <= r.value.0 <= r.value.1 <= MaxOrdinal
    ensures view == "today" ==> r == Success((Ordinal(today), Ordinal(today)))
    ensures view == "yesterday" ==>
              r == if Ordinal(today) == 1 then Failure(DateOverflow) else Success((Ordinal(today) - 1, Ordinal(today) - 1))
    ensures view == "week" ==> r == WeekRange(Ordinal(today))
    ensures view == "month" ==> r == MonthRange(today)
    ensures view !in Views ==> r == Failure(UnsupportedView(view))
  {
    var o := Ordinal(today);
    OrdinalAtMost(today);
    if view == "today" then Success((o, o))
    else if view == "yesterday" then
      if o - 1 < 1 then Failure(DateOverflow) else Success((o - 1, o - 1))
    else if view == "week" then WeekRange(o)
    else if view == "month" then MonthRange(today)
    else Failure(UnsupportedView(view))
  }

  /**
   * `SleepContextBuilder.build`. `fromIso` stands for `date.fromisoformat`
   * (the parsed date's ordinal, or None where it raises ValueError).
   */
  function Build(view: Option<string>, startRaw: Option<string>, endRaw: Option<string>, divider: bool,
                 today: Date, fromIso: string -> Option<int>): (r: Result<SleepContext, ContextError>)
    requires Valid(today)
    ensures r.Success? ==> (r.value.mode == ViewMode <==> view.Some?)
    ensures r.Success? ==> r.value.view == view && r.value.divider == divider && r.value.start <= r.value.end
    ensures view.Some? ==>
              var v := ResolveView(view.value, today);
              (r.Success? <==> v.Success?)
              && (v.Failure? ==> r == Failure(v.error))
              && (v.Success? ==> r.value.start == v.value.0 && r.value.end == v.value.1)
    ensures view.None? && startRaw.None? ==> r == Failure(StartDateMissing)
    ensures view.None? && startRaw.Some? && fromIso(startRaw.value).None? ==> r == Failure(InvalidIsoDate(startRaw.value))
    ensures view.None? && startRaw.Some? && fromIso(startRaw.value).Some? && (endRaw.None? || endRaw.value == "") ==>
              r == Success(SleepContext(DateMode, None, fromIso(startRaw.value).value, fromIso(startRaw.value).value, divider))
    ensures view.None? && startRaw.Some? && fromIso(startRaw.value).Some? && endRaw.Some? && endRaw.value != "" ==>
              match fromIso(endRaw.value)
              case None => r == Failure(InvalidIsoDate(endRaw.value))
              case Some(e) =>
                (r.Success? <==> fromIso(startRaw.value).value <= e)
                && (r.Failure? ==> r.error == StartAfterEnd)
                && (r.Success? ==> r.value.start == fromIso(startRaw.value).value && r.value.end == e)
  {
    match view
    case Some(v) =>
      var range :- ResolveView(v, today);
      Success(SleepContext(ViewMode, view, range.0, range.1, divider))
    case None =>
      if startRaw.None? then Failure(StartDateMissing)
      else
        match fromIso(startRaw.value)
        case None => Failure(InvalidIsoDate(startRaw.value))
        case Some(start) =>
          var end :- if endRaw.Some? && endRaw.value != "" then
                       (match fromIso(endRaw.value)
                        case None => Failure(InvalidIsoDate(endRaw.value))
                        case Some(e) => Success(e))
                     else Success(start);
          if start > end then Failure(StartAfterEnd)
          else Success(SleepContext(DateMode, None, start, end, divider))
  }

  /** Every view but "today" and "yesterday" covers more than one day, and a month covers its whole length. */
  lemma ViewLengths(view: string, today: Date)
    requires Valid(today)
    requires ResolveView(view, today).Success?
    ensures var r := ResolveView(view, today).value;
            r.1 - r.0 + 1 == (if view == "week" then 7
                              else if view == "month" then DaysInMonth(today.year, today.month)
                              else 1)
  {
    if view == "month" {
      MonthSpan(today.year, today.month);
    }
  }
}
