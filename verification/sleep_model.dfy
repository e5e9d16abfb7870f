/**
 * The records of the sleep-day core: stages, stage segments and timelines,
 * supplemental episodes, the sleep episodes the Oura API returns, the two
 * daily score documents and the assembled day snapshot.
 *
 * Instants are integer seconds on one time line; days are Calendar ordinals.
 * An episode also carries the local clock-of-day (seconds after midnight) of
 * its bedtime start, which is all the night heuristic looks at, and whether
 * the API's timestamp carried a UTC offset, which makes the parsed datetime
 * offset-aware.
 */
module SleepModel {
  import opened Wrappers
  import ApiClient

  datatype SleepStage = Awake | Light | Deep | Rem

  /** The stage's string value ("awake", "light", "deep", "rem"). */
  function StageValue(s: SleepStage): string {
    match s
    case Awake => "awake"
    case Light => "light"
    case Deep => "deep"
    case Rem => "rem"
  }

  datatype Segment = Segment(start: int, end: int, stage: SleepStage)

  datatype Timeline = Timeline(source: string, resolutionSeconds: int, segments: seq<Segment>)

  datatype SupplementalEpisode = SupplementalEpisode(start: int, end: int, durationSeconds: int)

  /** A floating-point physiology reading, carried as Python prints it and never inspected. */
  datatype Reading = Reading(repr: string)

  /**
   * The fields of an Oura sleep document that the core reads. Durations are
   * optional because the core treats a missing value as 0 (`x or 0`).
   */
  datatype SleepEpisode = SleepEpisode(
    id: string,
    day: int,
    kind: string,
    bedtimeStart: int,
    bedtimeEnd: int,
    bedtimeStartClock: int,
    bedtimeStartHasOffset: bool,
    timeInBed: Option<int>,
    totalSleepDuration: Option<int>,
    latency: Option<int>,
    deepSleepDuration: Option<int>,
    remSleepDuration: Option<int>,
    efficiency: Option<int>,
    sleepPhase5Min: Option<string>,
    averageHeartRate: Option<Reading>,
    lowestHeartRate: Option<int>,
    averageHrv: Option<Reading>)

  datatype DailySleepScore = DailySleepScore(day: int, score: Option<int>, timing: Option<int>)

  datatype DailyReadinessScore = DailyReadinessScore(day: int, score: Option<int>)

  datatype SleepDaySnapshot = SleepDaySnapshot(
    day: int,
    nightStart: int,
    nightEnd: int,
    coreSleepSeconds: int,
    timeInBedSeconds: int,
    efficiencyPct: Option<int>,
    latencySeconds: Option<int>,
    remSeconds: int,
    deepSeconds: int,
    remPct: Option<int>,
    deepPct: Option<int>,
    avgHr: Option<Reading>,
    minHr: Option<int>,
    avgHrv: Option<Reading>,
    supplementalSleepSeconds: int,
    totalSleep24hSeconds: int,
    sleepScore: Option<int>,
    readinessScore: Option<int>,
    timingScore: int,
    timingLabel: string,
    timeline: Option<Timeline>,
    supplementalEpisodes: seq<SupplementalEpisode>)

  /** Why building or fetching a day's snapshot raised. */
  datatype SleepError =
    | NoSleepEpisodesEndingOn(day: int)
    | TimingMissing
    | MissingDailySleepScore
    | MissingDailyReadinessScore
    | DateOutOfRange
    | NaiveAwareComparison
    | FetchFailed(cause: FetchError)
    | ReadinessStreamMissing

  /**
   * Why one of the client's document streams raised part-way: the token
   * provider's `LoginRequiredError` (every request asks it for a token), a
   * typed `OuraApiError` from a failed request, or anything else (a
   * transport error, a malformed page).
   */
  datatype FetchError =
    | LoginRequiredError
    | ApiRaised(kind: ApiClient.ApiErrorKind)
    | OtherFetchFailure

  /** The failures the services' `run` catches: `LoginRequiredError`, and `OuraAuthError`, which only a 401 raises. */
  predicate IsAuthFailure(f: FetchError) {
    f.LoginRequiredError? || f == ApiRaised(ApiClient.Unauthorized)
  }

  const LongSleep := "long_sleep"

  /** `total_sleep_duration or 0`, the ranking key of core selection. */
  function DurationKey(e: SleepEpisode): int {
    e.totalSleepDuration.GetOr(0)
  }

  /** Python truthiness of an optional integer: present and non-zero. */
  predicate IntTruthy(v: Option<int>) {
    v.Some? && v.value != 0
  }

  const SecondsPerDay := 86400
}
