/**
 * Assembly of one day's sleep snapshot: choosing the core sleep among the
 * episodes tagged to the day, adding up same-day supplemental sleep, and
 * deriving the stage percentages and the timing label.
 */
module SleepDayBuilder {
  import opened Wrappers
  import opened SleepModel
  import Strings

  // ---------------------------------------------------------------
  // Filtering and first-maximum selection
  // ---------------------------------------------------------------

  /** A list comprehension with a condition: order is kept. */
  function Filter(s: seq<SleepEpisode>, p: SleepEpisode -> bool): (r: seq<SleepEpisode>)
    ensures |r| <= |s|
    ensures forall x :: x in r <==> x in s && p(x)
    ensures forall i :: 0 <= i < |r| ==> p(r[i])
  {
    if s == [] then []
    else
      var rest := Filter(s[1..], p);
      assert forall x :: x in s <==> x == s[0] || x in s[1..];
      if p(s[0]) then [s[0]] + rest else rest
  }

  /** Index `i` holds a maximal duration, and every earlier element's is strictly smaller. */
  predicate IsFirstMaxAt(s: seq<SleepEpisode>, i: int) {
    && 0 <= i < |s|
    && (forall j :: 0 <= j < |s| ==> DurationKey(s[j]) <= DurationKey(s[i]))
    && (forall j :: 0 <= j < i ==> DurationKey(s[j]) < DurationKey(s[i]))
  }

  /** `e` is what Python's `max(s, key=duration)` returns: the first element of maximal duration. */
  ghost predicate IsFirstMax(s: seq<SleepEpisode>, e: SleepEpisode) {
    exists i :: IsFirstMaxAt(s, i) && s[i] == e
  }

  /** The first maximum is unique. */
  lemma FirstMaxUnique(s: seq<SleepEpisode>, i: int, k: int)
    requires IsFirstMaxAt(s, i) && IsFirstMaxAt(s, k)
    ensures i == k
  {
    assert DurationKey(s[i]) == DurationKey(s[k]);
  }

  /** The running best of `max` after its first `n` elements. */
  function FirstMaxIndex(s: seq<SleepEpisode>, n: nat): (b: nat)
    requires 1 <= n <= |s|
    ensures b < n
    ensures forall j :: 0 <= j < n ==> DurationKey(s[j]) <= DurationKey(s[b])
    ensures forall j :: 0 <= j < b ==> DurationKey(s[j]) < DurationKey(s[b])
  {
    if n == 1 then 0
    else
      var b := FirstMaxIndex(s, n - 1);
      if DurationKey(s[n - 1]) > DurationKey(s[b]) then n - 1 else b
  }

  /** `max(s, key=lambda d: d.total_sleep_duration or 0)`. */
  function MaxByDuration(s: seq<SleepEpisode>): (r: SleepEpisode)
    requires s != []
    ensures IsFirstMax(s, r)
  {
    var b := FirstMaxIndex(s, |s|);
    assert IsFirstMaxAt(s, b);
    s[b]
  }

  // ---------------------------------------------------------------
  // Core selection
  // ---------------------------------------------------------------

  /** `is_night_sleep`: bedtime starts at or after 18:00 or at or before 12:00 local time. */
  predicate IsNightSleep(e: SleepEpisode) {
    e.bedtimeStartClock >= 18 * 3600 || e.bedtimeStartClock <= 12 * 3600
  }

  function EndingOn(docs: seq<SleepEpisode>, day: int): seq<SleepEpisode> {
    Filter(docs, (d: SleepEpisode) => d.day == day)
  }

  function LongSleeps(docs: seq<SleepEpisode>): seq<SleepEpisode> {
    Filter(docs, (d: SleepEpisode) => d.kind == LongSleep)
  }

  function NightSleeps(docs: seq<SleepEpisode>): seq<SleepEpisode> {
    Filter(docs, IsNightSleep)
  }

  /**
   * `select_core_sleep`: among the episodes tagged to the day, the longest
   * `long_sleep`; failing that the longest night-time episode; failing that
   * the longest episode. Ties go to the earliest in input order. The night
   * test reads the local time of day of the bedtime start, which is what
   * `is_night_sleep` means to compare (see `SelectCoreSleepAsWritten`).
   */
  function SelectCoreSleep(docs: seq<SleepEpisode>, targetDay: int): (r: Result<SleepEpisode, SleepError>)
    ensures r.Failure? <==> forall d :: d in docs ==> d.day != targetDay
    ensures r.Failure? ==> r.error == NoSleepEpisodesEndingOn(targetDay)
    ensures r.Success? ==> r.value in docs && r.value.day == targetDay
    ensures r.Success? && (exists d :: d in docs && d.day == targetDay && d.kind == LongSleep) ==>
              r.value.kind == LongSleep && IsFirstMax(LongSleeps(EndingOn(docs, targetDay)), r.value)
    ensures r.Success? && (forall d :: d in docs && d.day == targetDay ==> d.kind != LongSleep)
              && (exists d :: d in docs && d.day == targetDay && IsNightSleep(d)) ==>
              IsNightSleep(r.value) && IsFirstMax(NightSleeps(EndingOn(docs, targetDay)), r.value)
    ensures r.Success? && (forall d :: d in docs && d.day == targetDay ==> d.kind != LongSleep && !IsNightSleep(d)) ==>
              IsFirstMax(EndingOn(docs, targetDay), r.value)
  {
    var endingToday := EndingOn(docs, targetDay);
    if endingToday == [] then Failure(NoSleepEpisodesEndingOn(targetDay))
    else
      var longs := LongSleeps(endingToday);
      if longs != [] then Success(MaxByDuration(longs))
      else
        var nights := NightSleeps(endingToday);
        if nights != [] then Success(MaxByDuration(nights))
        else Success(MaxByDuration(endingToday))
  }

  /** No other same-day `long_sleep` is longer than the one selected. */
  lemma CoreIsLongest(docs: seq<SleepEpisode>, targetDay: int, d: SleepEpisode)
    requires SelectCoreSleep(docs, targetDay).Success?
    requires d in docs && d.day == targetDay && d.kind == LongSleep
    ensures DurationKey(d) <= DurationKey(SelectCoreSleep(docs, targetDay).value)
  {
    var longs := LongSleeps(EndingOn(docs, targetDay));
    var i :| IsFirstMaxAt(longs, i) && longs[i] == SelectCoreSleep(docs, targetDay).value;
    assert d in longs;
    var j :| 0 <= j < |longs| && longs[j] == d;
  }

  /**
   * `select_core_sleep` as written. `is_night_sleep` orders the `timetz()` of
   * the bedtime start against the naive bounds `time(18, 0)` and `time(12, 0)`;
   * for a timestamp that carried a UTC offset that `timetz()` is offset-aware
   * and Python refuses the comparison with TypeError. The night filter visits
   * every same-day episode, so one such episode is enough.
   */
  function SelectCoreSleepAsWritten(docs: seq<SleepEpisode>, targetDay: int): (r: Result<SleepEpisode, SleepError>)
    ensures (exists d :: d in docs && d.day == targetDay && d.kind == LongSleep) ==> r == SelectCoreSleep(docs, targetDay)
    ensures (forall d :: d in docs && d.day == targetDay ==> d.kind != LongSleep) ==>
              (r == Failure(NaiveAwareComparison) <==> exists d :: d in docs && d.day == targetDay && d.bedtimeStartHasOffset)
    ensures (forall d :: d in docs && d.day == targetDay ==> !d.bedtimeStartHasOffset) ==> r == SelectCoreSleep(docs, targetDay)
  {
    var endingToday := EndingOn(docs, targetDay);
    if endingToday == [] then Failure(NoSleepEpisodesEndingOn(targetDay))
    else
      var longs := LongSleeps(endingToday);
      if longs != [] then Success(MaxByDuration(longs))
      else if exists i :: 0 <= i < |endingToday| && endingToday[i].bedtimeStartHasOffset then Failure(NaiveAwareComparison)
      else
        var nights := NightSleeps(endingToday);
        if nights != [] then Success(MaxByDuration(nights))
        else Success(MaxByDuration(endingToday))
  }

  /**
   * A day whose only episode is a nap stamped with a UTC offset: the code as
   * written raises, while comparing the local time of day selects the nap.
   */
  lemma SelectCoreSleepDiscrepancy()
    ensures var nap := SleepEpisode("nap", 2, "sleep", 0, 3600, 14 * 3600, true,
                                    Some(3600), Some(3000), None, None, None, Some(90), None, None, None, None);
            && SelectCoreSleepAsWritten([nap], 2) == Failure(NaiveAwareComparison)
            && SelectCoreSleep([nap], 2) == Success(nap)
  {
    var nap := SleepEpisode("nap", 2, "sleep", 0, 3600, 14 * 3600, true,
                            Some(3600), Some(3000), None, None, None, Some(90), None, None, None, None);
    assert EndingOn([nap], 2) == [nap];
    assert LongSleeps([nap]) == [];
    assert NightSleeps([nap]) == [];
  }

  // ---------------------------------------------------------------
  // Same-day supplemental sleep
  // ---------------------------------------------------------------

  /** The condition of `compute_supplemental_sleep`. */
  predicate CountsAsSupplemental(core: SleepEpisode, targetDay: int, d: SleepEpisode) {
    d.day == targetDay && d.id != core.id && DurationKey(d) > 0
  }

  function SumDurations(s: seq<SleepEpisode>): int {
    if s == [] then 0 else DurationKey(s[0]) + SumDurations(s[1..])
  }

  /** The same total, summed over the whole input with non-qualifying episodes counting 0. */
  function MaskedTotal(docs: seq<SleepEpisode>, core: SleepEpisode, targetDay: int): int {
    if docs == [] then 0
    else (if CountsAsSupplemental(core, targetDay, docs[0]) then DurationKey(docs[0]) else 0)
         + MaskedTotal(docs[1..], core, targetDay)
  }

  /**
   * `compute_supplemental_sleep`: the non-core episodes tagged to the day
   * with a positive duration, and the sum of their durations.
   */
  function ComputeSupplementalSleep(docs: seq<SleepEpisode>, core: SleepEpisode, targetDay: int)
    : (r: (seq<SleepEpisode>, int))
    ensures forall d :: d in r.0 <==> d in docs && CountsAsSupplemental(core, targetDay, d)
    ensures r.1 == MaskedTotal(docs, core, targetDay)
    ensures r.1 >= |r.0|
    ensures r.1 == 0 <==> r.0 == []
  {
    var selected := Filter(docs, (d: SleepEpisode) => CountsAsSupplemental(core, targetDay, d));
    FilterSumIsMasked(docs, core, targetDay);
    SumOfPositive(selected);
    (selected, SumDurations(selected))
  }

  lemma {:induction false} FilterSumIsMasked(docs: seq<SleepEpisode>, core: SleepEpisode, targetDay: int)
    ensures SumDurations(Filter(docs, (d: SleepEpisode) => CountsAsSupplemental(core, targetDay, d))) == MaskedTotal(docs, core, targetDay)
  {
    if docs != [] {
      FilterSumIsMasked(docs[1..], core, targetDay);
    }
  }

  lemma {:induction false} SumOfPositive(s: seq<SleepEpisode>)
    requires forall i :: 0 <= i < |s| ==> DurationKey(s[i]) > 0
    ensures SumDurations(s) >= |s|
  {
    if s != [] {
      SumOfPositive(s[1..]);
    }
  }

  /** Adding an episode to the input never lowers the supplemental total. */
  lemma {:induction false} SupplementalMonotone(docs: seq<SleepEpisode>, extra: SleepEpisode, core: SleepEpisode, targetDay: int)
    ensures MaskedTotal(docs + [extra], core, targetDay) >= MaskedTotal(docs, core, targetDay)
  {
    if docs != [] {
      assert (docs + [extra])[1..] == docs[1..] + [extra];
      SupplementalMonotone(docs[1..], extra, core, targetDay);
    }
  }

  // ---------------------------------------------------------------
  // Percentages and the timing label
  // ---------------------------------------------------------------

  function Abs(x: int): nat {
    if x < 0 then -x else x
  }

  /**
   * Python `round(n / d)`: the integer nearest to the exact quotient, with
   * halves going to the even neighbour.
   */
  function RoundHalfEven(n: int, d: int): (r: int)
    requires d != 0
    ensures 2 * Abs(n - r * d) <= Abs(d)
    ensures 2 * Abs(n - r * d) == Abs(d) ==> r % 2 == 0
    decreases if d < 0 then 1 else 0
  {
    if d < 0 then
      var r := RoundHalfEven(-n, -d);
      NegatedError(n, d, r);
      r
    else
      var q, m := n / d, n % d;
      QuotientError(n, d);
      if 2 * m < d then q
      else if 2 * m > d then q + 1
      else if q % 2 == 0 then q
      else q + 1
  }

  /** The errors of the truncated quotient and of the next integer up. */
  lemma QuotientError(n: int, d: int)
    requires d > 0
    ensures n - (n / d) * d == n % d
    ensures n - (n / d + 1) * d == n % d - d
  {
  }

  lemma NegatedError(n: int, d: int, r: int)
    ensures -n - r * -d == -(n - r * d)
  {
  }

  /** The two properties of `RoundHalfEven` determine it: no other integer has both. */
  lemma RoundHalfEvenUnique(n: int, d: int, r: int)
    requires d != 0
    requires 2 * Abs(n - r * d) <= Abs(d)
    requires 2 * Abs(n - r * d) == Abs(d) ==> r % 2 == 0
    ensures r == RoundHalfEven(n, d)
  {
    var k := RoundHalfEven(n, d);
    var e1, e2 := n - r * d, n - k * d;
    assert e2 - e1 == (r - k) * d;
    if r != k {
      assert Abs((r - k) * d) <= Abs(e1) + Abs(e2);
      AbsMulAtLeast(r - k, d);
    }
  }

  lemma AbsMulAtLeast(a: int, d: int)
    requires a != 0 && d != 0
    ensures Abs(a * d) >= Abs(d)
    ensures Abs(a) >= 2 ==> Abs(a * d) >= 2 * Abs(d)
  {
    var p, q := Abs(a), Abs(d);
    AbsMul(a, d);
    MulAtLeastOne(p, q);
    if p >= 2 {
      MulAtLeastOne(p - 1, q);
      assert p * q == (p - 1) * q + q;
    }
  }

  lemma AbsMul(a: int, d: int)
    ensures Abs(a * d) == Abs(a) * Abs(d)
  {
    if a < 0 && d < 0 {
      assert a * d == (-a) * (-d);
    } else if a < 0 {
      assert a * d == -((-a) * d);
    } else if d < 0 {
      assert a * d == -(a * (-d));
    }
  }

  lemma {:induction false} MulAtLeastOne(a: int, d: int)
    requires a >= 1 && d >= 1
    ensures a * d >= d
    decreases a
  {
    if a > 1 {
      MulAtLeastOne(a - 1, d);
      assert a * d == (a - 1) * d + d;
    }
  }

  /**
   * `round(100 * stage / total) if stage and total else None`: a percentage
   * only when both durations are present and non-zero.
   */
  function StagePercent(stage: Option<int>, total: Option<int>): (r: Option<int>)
    ensures r.Some? <==> IntTruthy(stage) && IntTruthy(total)
    ensures r.Some? ==> 2 * Abs(100 * stage.value - r.value * total.value) <= Abs(total.value)
    ensures r.Some? && 2 * Abs(100 * stage.value - r.value * total.value) == Abs(total.value) ==> r.value % 2 == 0
  {
    if IntTruthy(stage) && IntTruthy(total) then Some(RoundHalfEven(100 * stage.value, total.value)) else None
  }

  /** "Optimal" for a timing score of 90 or more, otherwise "<timing>/100". */
  function TimingLabel(timing: int): (r: string)
    ensures r == "Optimal" <==> timing >= 90
    ensures timing < 90 ==> |r| > 4 && r[|r| - 4..] == "/100" && Strings.ParseInt(r[..|r| - 4]) == Some(timing)
  {
    if timing >= 90 then "Optimal"
    else
      var digits := Strings.IntToDecimal(timing);
      Strings.ParseIntOfDecimal(timing);
      var r := digits + "/100";
      assert r[..|r| - 4] == digits;
      assert r[|r| - 1] == '0';
      r
  }

  // ---------------------------------------------------------------
  // The snapshot
  // ---------------------------------------------------------------

  /**
   * The relations that hold among a built snapshot's own fields: the
   * 24-hour total is core plus supplemental, each percentage exists exactly
   * when its stage and the core total are non-zero and is the rounded share,
   * the label agrees with the timing score, and no timeline or episode list
   * is attached.
   */
  predicate Consistent(s: SleepDaySnapshot) {
    && s.totalSleep24hSeconds == s.coreSleepSeconds + s.supplementalSleepSeconds
    && s.supplementalSleepSeconds >= 0
    && (s.remPct.Some? <==> s.remSeconds != 0 && s.coreSleepSeconds != 0)
    && (s.deepPct.Some? <==> s.deepSeconds != 0 && s.coreSleepSeconds != 0)
    && (s.remPct.Some? ==> 2 * Abs(100 * s.remSeconds - s.remPct.value * s.coreSleepSeconds) <= Abs(s.coreSleepSeconds))
    && (s.deepPct.Some? ==> 2 * Abs(100 * s.deepSeconds - s.deepPct.value * s.coreSleepSeconds) <= Abs(s.coreSleepSeconds))
    && (s.remPct.Some? && 2 * Abs(100 * s.remSeconds - s.remPct.value * s.coreSleepSeconds) == Abs(s.coreSleepSeconds) ==> s.remPct.value % 2 == 0)
    && (s.deepPct.Some? && 2 * Abs(100 * s.deepSeconds - s.deepPct.value * s.coreSleepSeconds) == Abs(s.coreSleepSeconds) ==> s.deepPct.value % 2 == 0)
    && (s.timingLabel == "Optimal" <==> s.timingScore >= 90)
    && s.timeline.None?
    && s.supplementalEpisodes == []
  }

  /**
   * The fields a snapshot takes over from the core episode and the sleep
   * score: a missing duration reads as 0, the stage percentages are the
   * core's rounded shares, and the label is the one for the timing score.
   */
  predicate CarriesCore(s: SleepDaySnapshot, core: SleepEpisode, dailySleep: DailySleepScore) {
    && s.timeInBedSeconds == core.timeInBed.GetOr(0)
    && s.remSeconds == core.remSleepDuration.GetOr(0)
    && s.deepSeconds == core.deepSleepDuration.GetOr(0)
    && s.efficiencyPct == core.efficiency
    && s.latencySeconds == core.latency
    && s.avgHr == core.averageHeartRate
    && s.minHr == core.lowestHeartRate
    && s.avgHrv == core.averageHrv
    && s.remPct == StagePercent(core.remSleepDuration, core.totalSleepDuration)
    && s.deepPct == StagePercent(core.deepSleepDuration, core.totalSleepDuration)
    && dailySleep.timing.Some? && s.timingLabel == TimingLabel(dailySleep.timing.value)
  }

  /**
   * `build_sleep_day_snapshot`. It raises when no episode is tagged to the
   * day and, after that, when the sleep score has no timing (comparing None
   * with 90 is a TypeError).
   */
  function BuildSleepDaySnapshot(targetDay: int, docs: seq<SleepEpisode>, dailySleep: DailySleepScore, readiness: DailyReadinessScore)
    : (r: Result<SleepDaySnapshot, SleepError>)
    ensures (forall d :: d in docs ==> d.day != targetDay) ==> r == Failure(NoSleepEpisodesEndingOn(targetDay))
    ensures (exists d :: d in docs && d.day == targetDay) && dailySleep.timing.None? ==> r == Failure(TimingMissing)
    ensures r.Success? <==> (exists d :: d in docs && d.day == targetDay) && dailySleep.timing.Some?
    ensures r.Success? ==> Consistent(r.value)
    ensures r.Success? ==>
              var core := SelectCoreSleep(docs, targetDay).value;
              && r.value.day == targetDay
              && r.value.nightStart == core.bedtimeStart && r.value.nightEnd == core.bedtimeEnd
              && r.value.coreSleepSeconds == DurationKey(core)
              && r.value.supplementalSleepSeconds == MaskedTotal(docs, core, targetDay)
              && r.value.sleepScore == dailySleep.score && r.value.readinessScore == readiness.score
              && r.value.timingScore == dailySleep.timing.value
              && CarriesCore(r.value, core, dailySleep)
  {
    var core :- SelectCoreSleep(docs, targetDay);
    var (_, supplementalSeconds) := ComputeSupplementalSleep(docs, core, targetDay);
    var total24h := core.totalSleepDuration.GetOr(0) + supplementalSeconds;
    var remPct := StagePercent(core.remSleepDuration, core.totalSleepDuration);
    var deepPct := StagePercent(core.deepSleepDuration, core.totalSleepDuration);
    if dailySleep.timing.None? then Failure(TimingMissing)
    else
      var timing := dailySleep.timing.value;
      Success(SleepDaySnapshot(
        day := targetDay,
        nightStart := core.bedtimeStart,
        nightEnd := core.bedtimeEnd,
        coreSleepSeconds := core.totalSleepDuration.GetOr(0),
        timeInBedSeconds := core.timeInBed.GetOr(0),
        efficiencyPct := core.efficiency,
        latencySeconds := core.latency,
        remSeconds := core.remSleepDuration.GetOr(0),
        deepSeconds := core.deepSleepDuration.GetOr(0),
        remPct := remPct,
        deepPct := deepPct,
        avgHr := core.averageHeartRate,
        minHr := core.lowestHeartRate,
        avgHrv := core.averageHrv,
        supplementalSleepSeconds := supplementalSeconds,
        totalSleep24hSeconds := total24h,
        sleepScore := dailySleep.score,
        readinessScore := readiness.score,
        timingScore := timing,
        timingLabel := TimingLabel(timing),
        timeline := None,
        supplementalEpisodes := []))
  }
}
