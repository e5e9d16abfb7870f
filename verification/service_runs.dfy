/**
 * The two CLI services' per-day work plugged into the shared day loop:
 * fetch the day's snapshot from the provider, then render it.
 */
module ServiceRuns {
  import opened Wrappers
  import opened SleepModel
  import Calendar
  import ApiClient
  import DayLoop
  import SleepDayProvider
  import SleepJournal
  import SleepSummary
  import Presentation

  /**
   * A provider failure as the loop sees it: the two authentication failures
   * keep their classes, which the loop catches; anything else propagates.
   */
  function ProviderError(e: SleepError): (r: DayLoop.RunError)
    ensures r.DateOverflow? <==> e.DateOutOfRange?
    ensures r == DayLoop.LoginRequired <==> e == FetchFailed(LoginRequiredError)
    ensures r == DayLoop.OuraAuth <==> e == FetchFailed(ApiRaised(ApiClient.Unauthorized))
    ensures DayLoop.IsAuthError(r) <==> e.FetchFailed? && IsAuthFailure(e.cause)
    ensures r.DateOverflow? || DayLoop.IsAuthError(r) || r == DayLoop.SnapshotFailed(e)
  {
    if e.DateOutOfRange? then DayLoop.DateOverflow
    else if e == FetchFailed(LoginRequiredError) then DayLoop.LoginRequired
    else if e == FetchFailed(ApiRaised(ApiClient.Unauthorized)) then DayLoop.OuraAuth
    else DayLoop.SnapshotFailed(e)
  }

  /**
   * `SleepJournalService._render_day`, as written when `asWritten` holds and
   * with the rendering correction otherwise.
   */
  function JournalDay(client: SleepDayProvider.SleepClient, hourOf: int -> int, asWritten: bool, d: int): (r: DayLoop.DayResult<SleepJournal.JournalEntry>)
    ensures !(1 <= d <= Calendar.MaxOrdinal) ==> r == DayLoop.Raise(DayLoop.DateOverflow)
    ensures 1 <= d <= Calendar.MaxOrdinal && SleepDayProvider.GetSnapshot(client, d).Failure? ==>
              r == DayLoop.Raise(ProviderError(SleepDayProvider.GetSnapshot(client, d).error))
    ensures 1 <= d <= Calendar.MaxOrdinal && SleepDayProvider.GetSnapshot(client, d) == Success(None) ==>
              r == DayLoop.Rendered(SleepJournal.MissingDay(d))
    ensures 1 <= d <= Calendar.MaxOrdinal && SleepDayProvider.GetSnapshot(client, d).Success?
            && SleepDayProvider.GetSnapshot(client, d).value.Some? ==>
              (asWritten <==> r == DayLoop.Raise(DayLoop.AttributeMissing))
    ensures 1 <= d <= Calendar.MaxOrdinal && !asWritten ==>
              (r.Rendered? <==> Printable(client, d))
              && (r == DayLoop.Raise(DayLoop.HeartRateFormat) <==> SleepDayProvider.GetSnapshot(client, d).Success? && !Printable(client, d))
  {
    if !(1 <= d <= Calendar.MaxOrdinal) then DayLoop.Raise(DayLoop.DateOverflow)
    else match SleepDayProvider.GetSnapshot(client, d)
      case Failure(e) => DayLoop.Raise(ProviderError(e))
      case Success(snapshot) =>
        var outcome := if asWritten then SleepJournal.RenderDayAsWritten(d, snapshot)
                       else SleepJournal.RenderDay(d, snapshot, hourOf);
        match outcome
        case AttributeError => DayLoop.Raise(DayLoop.AttributeMissing)
        case HeartRateTypeError => DayLoop.Raise(DayLoop.HeartRateFormat)
        case Printed(entry) => DayLoop.Rendered(entry)
  }

  /**
   * As written, a journal run prints the placeholder for the leading days
   * without data and then crashes on the first day that has data; the
   * authentication handler does not catch it.
   */
  lemma JournalAsWrittenStopsAtFirstDayWithData(client: SleepDayProvider.SleepClient, hourOf: int -> int, start: int, end: int, divider: bool, first: int)
    requires 1 <= start <= first <= end < Calendar.MaxOrdinal
    requires forall d :: start <= d < first ==> SleepDayProvider.GetSnapshot(client, d) == Success(None)
    requires SleepDayProvider.GetSnapshot(client, first).Success? && SleepDayProvider.GetSnapshot(client, first).value.Some?
    ensures var run := DayLoop.Transcript(start, end, divider, d => JournalDay(client, hourOf, true, d));
            run.status == DayLoop.Raised(DayLoop.AttributeMissing)
            && DayLoop.Days(run.events) == DayLoop.Range(start, first - 1)
  {
    var day := d => JournalDay(client, hourOf, true, d);
    assert forall d :: start <= d < first ==> day(d).Rendered?;
    DayLoop.StopsAtFirstFailure(start, end, divider, day, first);
  }

  /**
   * The provider delivered day `d`, and a snapshot it delivered has the
   * average heart rate the renderers format.
   */
  predicate Printable(client: SleepDayProvider.SleepClient, d: int)
    requires 1 <= d <= Calendar.MaxOrdinal
  {
    var got := SleepDayProvider.GetSnapshot(client, d);
    got.Success? && (got.value.Some? ==> Presentation.HeartRatePrints(got.value.value))
  }

  /** With the correction, a day with data renders its entry when its heart rate can be formatted. */
  lemma JournalCorrectedRendersDaysWithData(client: SleepDayProvider.SleepClient, hourOf: int -> int, d: int)
    requires 1 <= d <= Calendar.MaxOrdinal
    requires SleepDayProvider.GetSnapshot(client, d).Success? && SleepDayProvider.GetSnapshot(client, d).value.Some?
    ensures JournalDay(client, hourOf, false, d).Rendered? <==> Printable(client, d)
    ensures JournalDay(client, hourOf, false, d).Rendered? ==> JournalDay(client, hourOf, false, d).output.Entry?
  {
  }

  /**
   * A journal run that hits an authentication failure while fetching day
   * `k` ends quietly: the days before `k` are shown and nothing after.
   */
  lemma JournalAuthFailureEndsQuietly(client: SleepDayProvider.SleepClient, hourOf: int -> int, asWritten: bool,
                                      start: int, end: int, divider: bool, k: int)
    requires 1 <= start <= k <= end < Calendar.MaxOrdinal
    requires forall d :: start <= d < k ==>
               Printable(client, d) && (asWritten ==> SleepDayProvider.GetSnapshot(client, d) == Success(None))
    requires SleepDayProvider.GetSnapshot(client, k).Failure?
    requires SleepDayProvider.GetSnapshot(client, k).error.FetchFailed?
    requires IsAuthFailure(SleepDayProvider.GetSnapshot(client, k).error.cause)
    ensures var run := DayLoop.Transcript(start, end, divider, d => JournalDay(client, hourOf, asWritten, d));
            run.status == DayLoop.AuthExit && DayLoop.Days(run.events) == DayLoop.Range(start, k - 1)
  {
    var day := d => JournalDay(client, hourOf, asWritten, d);
    assert forall d :: start <= d < k ==> day(d).Rendered?;
    DayLoop.StopsAtFirstFailure(start, end, divider, day, k);
  }

  /** `SleepSummaryService._summarize_day`: nothing for a day without data. */
  function SummaryDay(client: SleepDayProvider.SleepClient, d: int): (r: DayLoop.DayResult<Option<SleepSummary.Summary>>)
    ensures !(1 <= d <= Calendar.MaxOrdinal) ==> r == DayLoop.Raise(DayLoop.DateOverflow)
    ensures 1 <= d <= Calendar.MaxOrdinal && SleepDayProvider.GetSnapshot(client, d).Failure? ==>
              r == DayLoop.Raise(ProviderError(SleepDayProvider.GetSnapshot(client, d).error))
    ensures 1 <= d <= Calendar.MaxOrdinal ==>
              (r.Rendered? <==> Printable(client, d))
              && (r == DayLoop.Raise(DayLoop.HeartRateFormat) <==> SleepDayProvider.GetSnapshot(client, d).Success? && !Printable(client, d))
              && (r.Rendered? ==> (r.output.None? <==> SleepDayProvider.GetSnapshot(client, d) == Success(None)))
  {
    if !(1 <= d <= Calendar.MaxOrdinal) then DayLoop.Raise(DayLoop.DateOverflow)
    else match SleepDayProvider.GetSnapshot(client, d)
      case Failure(e) => DayLoop.Raise(ProviderError(e))
      case Success(snapshot) =>
        match SleepSummary.SummarizeDay(snapshot)
        case Skipped => DayLoop.Rendered(None)
        case Printed(summary) => DayLoop.Rendered(Some(summary))
        case HeartRateTypeError => DayLoop.Raise(DayLoop.HeartRateFormat)
  }

  /** The summary run ends quietly on an authentication failure in the same way. */
  lemma SummaryAuthFailureEndsQuietly(client: SleepDayProvider.SleepClient, start: int, end: int, divider: bool, k: int)
    requires 1 <= start <= k <= end < Calendar.MaxOrdinal
    requires forall d :: start <= d < k ==> Printable(client, d)
    requires SleepDayProvider.GetSnapshot(client, k).Failure?
    requires SleepDayProvider.GetSnapshot(client, k).error.FetchFailed?
    requires IsAuthFailure(SleepDayProvider.GetSnapshot(client, k).error.cause)
    ensures var run := DayLoop.Transcript(start, end, divider, d => SummaryDay(client, d));
            run.status == DayLoop.AuthExit && DayLoop.Days(run.events) == DayLoop.Range(start, k - 1)
  {
    var day := d => SummaryDay(client, d);
    assert forall d :: start <= d < k ==> day(d).Rendered?;
    DayLoop.StopsAtFirstFailure(start, end, divider, day, k);
  }

  /**
   * A journal run reaching a day whose snapshot has no average heart rate
   * ends there with the formatting TypeError, which the authentication
   * handler does not catch: the days before it are shown and nothing after.
   */
  lemma JournalNullHeartRateEndsTheRun(client: SleepDayProvider.SleepClient, hourOf: int -> int,
                                       start: int, end: int, divider: bool, k: int)
    requires 1 <= start <= k <= end < Calendar.MaxOrdinal
    requires forall d :: start <= d < k ==> Printable(client, d)
    requires SleepDayProvider.GetSnapshot(client, k).Success? && !Printable(client, k)
    ensures var run := DayLoop.Transcript(start, end, divider, d => JournalDay(client, hourOf, false, d));
            run.status == DayLoop.Raised(DayLoop.HeartRateFormat) && DayLoop.Days(run.events) == DayLoop.Range(start, k - 1)
  {
    var day := d => JournalDay(client, hourOf, false, d);
    assert forall d :: start <= d < k ==> day(d).Rendered?;
    assert day(k) == DayLoop.Raise(DayLoop.HeartRateFormat);
    DayLoop.StopsAtFirstFailure(start, end, divider, day, k);
  }

  /** The summary run stops at such a day in the same way. */
  lemma SummaryNullHeartRateEndsTheRun(client: SleepDayProvider.SleepClient, start: int, end: int, divider: bool, k: int)
    requires 1 <= start <= k <= end < Calendar.MaxOrdinal
    requires forall d :: start <= d < k ==> Printable(client, d)
    requires SleepDayProvider.GetSnapshot(client, k).Success? && !Printable(client, k)
    ensures var run := DayLoop.Transcript(start, end, divider, d => SummaryDay(client, d));
            run.status == DayLoop.Raised(DayLoop.HeartRateFormat) && DayLoop.Days(run.events) == DayLoop.Range(start, k - 1)
  {
    var day := d => SummaryDay(client, d);
    assert forall d :: start <= d < k ==> day(d).Rendered?;
    DayLoop.StopsAtFirstFailure(start, end, divider, day, k);
  }
}
