/**
 * The provider's decision logic: fetch the episodes around the day, report
 * "no data" when there are none, insist on a sleep score and then on a
 * readiness score, and hand everything to the snapshot builder. Any fetch
 * may raise, and its error leaves the provider unchanged.
 */
module SleepDayProvider {
  import opened Wrappers
  import opened SleepModel
  import SleepDayBuilder
  import Calendar

  /**
   * The three document streams of the API client, each a function of the
   * requested window of day ordinals (first and last day, inclusive). A
   * stream that raises part-way yields the error instead of its documents.
   */
  datatype SleepClient = SleepClient(
    sleep: (int, int) -> Result<seq<SleepEpisode>, FetchError>,
    dailySleepScores: (int, int) -> Result<seq<DailySleepScore>, FetchError>,
    readinessScores: (int, int) -> Result<seq<DailyReadinessScore>, FetchError>)

  /** The document an `async for` loop that keeps overwriting one variable leaves behind. */
  function LastOf<T>(s: seq<T>): (r: Option<T>)
    ensures r.None? <==> s == []
    ensures r.Some? ==> r.value in s
  {
    if s == [] then None else Some(s[|s| - 1])
  }

  /** A stream's documents, or its error as the provider raises it. */
  function Fetched<T>(stream: Result<seq<T>, FetchError>): (r: Result<seq<T>, SleepError>)
    ensures r.Success? <==> stream.Success?
    ensures r.Success? ==> r.value == stream.value
    ensures r.Failure? ==> r.error == FetchFailed(stream.error)
  {
    match stream
    case Success(docs) => Success(docs)
    case Failure(f) => Failure(FetchFailed(f))
  }

  /**
   * The part of `get_snapshot` before the readiness lookup: the window's
   * episodes and the day's last sleep score, or `None` for a day without
   * episodes.
   */
  function UpToSleepScore(client: SleepClient, targetDay: int): (r: Result<Option<(seq<SleepEpisode>, DailySleepScore)>, SleepError>)
    requires 1 <= targetDay <= Calendar.MaxOrdinal
    ensures r.Success? && r.value.Some? ==> r.value.value.0 != []
  {
    if targetDay - 1 < 1 || targetDay + 1 > Calendar.MaxOrdinal then Failure(DateOutOfRange)
    else
      var docs :- Fetched(client.sleep(targetDay - 1, targetDay + 1));
      if docs == [] then Success(None)
      else
        var scores :- Fetched(client.dailySleepScores(targetDay, targetDay));
        var dailySleep := LastOf(scores);
        if dailySleep.None? then Failure(MissingDailySleepScore)
        else Success(Some((docs, dailySleep.value)))
  }

  /**
   * `SleepDayProvider.get_snapshot`, with the readiness scores read from the
   * client's readiness stream. Stepping the day back and forward is date
   * arithmetic that raises at the ends of the representable range.
   */
  function GetSnapshot(client: SleepClient, targetDay: int): (r: Result<Option<SleepDaySnapshot>, SleepError>)
    requires 1 <= targetDay <= Calendar.MaxOrdinal
    ensures targetDay == 1 || targetDay == Calendar.MaxOrdinal ==> r == Failure(DateOutOfRange)
    ensures 1 < targetDay < Calendar.MaxOrdinal ==>
              var window := client.sleep(targetDay - 1, targetDay + 1);
              (window.Failure? ==> r == Failure(FetchFailed(window.error)))
              && (r == Success(None) <==> window == Success([]))
    ensures 1 < targetDay < Calendar.MaxOrdinal && client.sleep(targetDay - 1, targetDay + 1).Success?
            && client.sleep(targetDay - 1, targetDay + 1).value != [] ==>
              var scores, readiness := client.dailySleepScores(targetDay, targetDay), client.readinessScores(targetDay, targetDay);
              (scores.Failure? ==> r == Failure(FetchFailed(scores.error)))
              && (scores == Success([]) ==> r == Failure(MissingDailySleepScore))
              && (scores.Success? && scores.value != [] && readiness.Failure? ==> r == Failure(FetchFailed(readiness.error)))
              && (scores.Success? && scores.value != [] && readiness == Success([]) ==> r == Failure(MissingDailyReadinessScore))
  {
    match UpToSleepScore(client, targetDay)
    case Failure(e) => Failure(e)
    case Success(None) => Success(None)
    case Success(Some((docs, dailySleep))) =>
      var readinessDocs :- Fetched(client.readinessScores(targetDay, targetDay));
      var readiness := LastOf(readinessDocs);
      if readiness.None? then Failure(MissingDailyReadinessScore)
      else
        var snapshot :- SleepDayBuilder.BuildSleepDaySnapshot(targetDay, docs, dailySleep, readiness.value);
        Success(Some(snapshot))
  }

  /**
   * When every stream delivers, the day's snapshot is what the builder makes
   * of the window's episodes and the last document of each score stream, and
   * its failure is the builder's.
   */
  lemma BuildsFromLastScores(client: SleepClient, targetDay: int)
    requires 1 < targetDay < Calendar.MaxOrdinal
    requires client.sleep(targetDay - 1, targetDay + 1).Success? && client.sleep(targetDay - 1, targetDay + 1).value != []
    requires client.dailySleepScores(targetDay, targetDay).Success? && client.dailySleepScores(targetDay, targetDay).value != []
    requires client.readinessScores(targetDay, targetDay).Success? && client.readinessScores(targetDay, targetDay).value != []
    ensures var scores, readiness := client.dailySleepScores(targetDay, targetDay).value, client.readinessScores(targetDay, targetDay).value;
            var built := SleepDayBuilder.BuildSleepDaySnapshot(targetDay, client.sleep(targetDay - 1, targetDay + 1).value,
                                                               scores[|scores| - 1], readiness[|readiness| - 1]);
            (built.Success? ==> GetSnapshot(client, targetDay) == Success(Some(built.value)))
            && (built.Failure? ==> GetSnapshot(client, targetDay) == Failure(built.error))
  {
  }

  /**
   * `get_snapshot` as written: once the sleep score is in, it asks the
   * client for `iter_daily_readiness_scores`, a method `OuraApiClient` does
   * not define, so the attribute lookup raises before any readiness
   * document is fetched.
   */
  function GetSnapshotAsWritten(client: SleepClient, targetDay: int): (r: Result<Option<SleepDaySnapshot>, SleepError>)
    requires 1 <= targetDay <= Calendar.MaxOrdinal
    ensures r.Success? ==> r == Success(None)
  {
    match UpToSleepScore(client, targetDay)
    case Failure(e) => Failure(e)
    case Success(None) => Success(None)
    case Success(Some(_)) => Failure(ReadinessStreamMissing)
  }

  /**
   * As written, the provider never builds a snapshot: every day on which the
   * corrected provider gets past the sleep-score check, whatever the
   * readiness stream holds, raises instead; every other day comes out the
   * same.
   */
  lemma AsWrittenNeverBuildsSnapshot(client: SleepClient, targetDay: int)
    requires 1 <= targetDay <= Calendar.MaxOrdinal
    ensures GetSnapshot(client, targetDay).Success? && GetSnapshot(client, targetDay).value.Some? ==>
              GetSnapshotAsWritten(client, targetDay) == Failure(ReadinessStreamMissing)
    ensures GetSnapshotAsWritten(client, targetDay) == Failure(ReadinessStreamMissing)
            || GetSnapshotAsWritten(client, targetDay) == GetSnapshot(client, targetDay)
  {
  }

  /** Every fetch goes through the token provider, so an expired login fails the day at its first request. */
  lemma LoginFailureFailsTheDay(client: SleepClient, targetDay: int)
    requires 1 < targetDay < Calendar.MaxOrdinal
    requires client.sleep(targetDay - 1, targetDay + 1) == Failure(LoginRequiredError)
    ensures GetSnapshot(client, targetDay) == Failure(FetchFailed(LoginRequiredError))
    ensures GetSnapshotAsWritten(client, targetDay) == Failure(FetchFailed(LoginRequiredError))
  {
  }

  /** Earlier score documents in a stream are overwritten: only the last one matters. */
  lemma LastScoreWins(client: SleepClient, targetDay: int, earlier: seq<DailySleepScore>, earlierReadiness: seq<DailyReadinessScore>)
    requires 1 <= targetDay <= Calendar.MaxOrdinal
    requires client.dailySleepScores(targetDay, targetDay) != Success([])
    requires client.readinessScores(targetDay, targetDay) != Success([])
    ensures var padded := client.(dailySleepScores := (a, b) => Prepend(earlier, client.dailySleepScores(a, b)),
                                  readinessScores := (a, b) => Prepend(earlierReadiness, client.readinessScores(a, b)));
            GetSnapshot(padded, targetDay) == GetSnapshot(client, targetDay)
  {
    var padded := client.(dailySleepScores := (a, b) => Prepend(earlier, client.dailySleepScores(a, b)),
                          readinessScores := (a, b) => Prepend(earlierReadiness, client.readinessScores(a, b)));
    var s := client.dailySleepScores(targetDay, targetDay);
    var q := client.readinessScores(targetDay, targetDay);
    if s.Success? {
      assert LastOf(earlier + s.value) == LastOf(s.value);
    }
    if q.Success? {
      assert LastOf(earlierReadiness + q.value) == LastOf(q.value);
    }
    assert UpToSleepScore(padded, targetDay) == UpToSleepScore(client, targetDay);
  }

  /** A stream that delivered `earlier` before its own documents; a raising stream still raises. */
  function Prepend<T>(earlier: seq<T>, stream: Result<seq<T>, FetchError>): (r: Result<seq<T>, FetchError>)
    ensures stream.Failure? ==> r == stream
    ensures stream.Success? ==> r.Success? && |r.value| == |earlier| + |stream.value| && r.value[|earlier|..] == stream.value
  {
    match stream
    case Success(docs) => Success(earlier + docs)
    case Failure(f) => Failure(f)
  }
}
