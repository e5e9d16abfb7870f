/**
 * The decision logic of the summary command's rendering: the awake-period
 * block drawn from a snapshot's timeline, and what a day produces.
 */
module SleepSummary {
  import opened Wrappers
  import opened SleepModel
  import Strings
  import Presentation
  import SleepDayBuilder

  /** The awake segments of a timeline, in timeline order. */
  function AwakeSegments(segs: seq<Segment>): (r: seq<Segment>)
    ensures forall x :: x in r <==> x in segs && x.stage == Awake
    ensures |r| <= |segs|
  {
    if segs == [] then []
    else (if segs[0].stage == Awake then [segs[0]] else []) + AwakeSegments(segs[1..])
  }

  /** Python's `s[:n]`: a negative bound counts from the end. */
  function PyTake<T>(s: seq<T>, n: int): (r: seq<T>)
    ensures 0 <= n ==> |r| == Presentation.Min(n, |s|)
    ensures n < 0 ==> |r| == if |s| + n > 0 then |s| + n else 0
    ensures forall i :: 0 <= i < |r| ==> i < |s| && r[i] == s[i]
  {
    if 0 <= n then (if n <= |s| then s[..n] else s)
    else if |s| + n > 0 then s[..|s| + n] else []
  }

  /** One listed awake period: its bounds and its whole minutes. */
  datatype AwakeRow = AwakeRow(start: int, end: int, minutes: int)

  /**
   * The awake block: nothing without a timeline, the "none" line when the
   * timeline has no awake segment, otherwise the listed rows and how many
   * further awake segments the "+N more" line counts (0: no such line).
   */
  datatype AwakeBlock = NoTimeline | NoAwake | Listing(rows: seq<AwakeRow>, more: nat)

  const DefaultMaxEntries := 3

  function RowOf(seg: Segment): (r: AwakeRow)
    ensures r.start == seg.start && r.end == seg.end
    ensures 60 * r.minutes <= seg.end - seg.start < 60 * r.minutes + 60
  {
    AwakeRow(seg.start, seg.end, (seg.end - seg.start) / 60)
  }

  /** `_render_awake_periods(s, max_entries)`. */
  function AwakePeriods(s: SleepDaySnapshot, maxEntries: int): (r: AwakeBlock)
    ensures r == NoTimeline <==> s.timeline.None?
    ensures r == NoAwake <==> s.timeline.Some? && AwakeSegments(s.timeline.value.segments) == []
    ensures r.Listing? ==>
              var awake := AwakeSegments(s.timeline.value.segments);
              && |r.rows| == |PyTake(awake, maxEntries)|
              && (forall i :: 0 <= i < |r.rows| ==> r.rows[i] == RowOf(awake[i]))
              && (r.more > 0 <==> |awake| > maxEntries)
              && (r.more > 0 ==> r.more == |awake| - maxEntries)
  {
    match s.timeline
    case None => NoTimeline
    case Some(t) =>
      var awake := AwakeSegments(t.segments);
      if awake == [] then NoAwake
      else
        var shown := PyTake(awake, maxEntries);
        var remaining := |awake| - maxEntries;
        Listing(seq(|shown|, i requires 0 <= i < |shown| => RowOf(shown[i])), if remaining > 0 then remaining else 0)
  }

  /** With a non-negative bound every awake segment is either listed or counted in "+N more", once. */
  lemma ListedPlusMoreIsAll(s: SleepDaySnapshot, maxEntries: nat)
    requires AwakePeriods(s, maxEntries).Listing?
    ensures var r := AwakePeriods(s, maxEntries);
            |r.rows| + r.more == |AwakeSegments(s.timeline.value.segments)|
    ensures |AwakePeriods(s, maxEntries).rows| <= maxEntries
  {
  }

  /** Every listed row is an awake segment of the timeline. */
  lemma ListedRowsAreAwake(s: SleepDaySnapshot, maxEntries: int, i: int)
    requires AwakePeriods(s, maxEntries).Listing?
    requires 0 <= i < |AwakePeriods(s, maxEntries).rows|
    ensures var row := AwakePeriods(s, maxEntries).rows[i];
            Segment(row.start, row.end, Awake) in s.timeline.value.segments
  {
    var awake := AwakeSegments(s.timeline.value.segments);
    assert awake[i] in awake;
  }

  const AwakeHeader := "    Awake periods:"
  const AwakeNone := "    Awake periods: none\n"
  const AwakeBullet := "      \U{2022} "

  /**
   * The text of the block; `hhmm` renders an instant as local "%H:%M", a
   * formatting concern outside the model.
   */
  function RenderAwakeBlock(b: AwakeBlock, hhmm: int -> string): (r: string)
    ensures b == NoTimeline <==> r == ""
    ensures b == NoAwake ==> r == AwakeNone
    ensures b.Listing? ==> |r| > |AwakeHeader| && r[..|AwakeHeader|] == AwakeHeader && r[|r| - 1] == '\n'
  {
    match b
    case NoTimeline => ""
    case NoAwake => AwakeNone
    case Listing(rows, more) =>
      var lines := [AwakeHeader]
        + seq(|rows|, i requires 0 <= i < |rows| =>
                AwakeBullet + hhmm(rows[i].start) + "\U{2013}" + hhmm(rows[i].end)
                + " (" + Strings.IntToDecimal(rows[i].minutes) + "m)")
        + (if more > 0 then [AwakeBullet + "+" + Strings.IntToDecimal(more) + " more"] else []);
      var r := Strings.JoinLines(lines) + "\n";
      Strings.JoinLinesStartsWithFirst(lines);
      r
  }

  /** The bullet lines for supplemental episodes: each with its whole minutes. */
  function SupplementalMinutes(s: SleepDaySnapshot): (r: seq<int>)
    ensures |r| == |s.supplementalEpisodes|
    ensures forall i :: 0 <= i < |r| ==>
              60 * r[i] <= s.supplementalEpisodes[i].durationSeconds < 60 * r[i] + 60
  {
    seq(|s.supplementalEpisodes|, i requires 0 <= i < |s.supplementalEpisodes| => s.supplementalEpisodes[i].durationSeconds / 60)
  }

  /** The parts of a summary the model computes. */
  datatype Summary = Summary(
    day: int,
    totalSleep: string,
    supplementalSleep: string,
    totalSleep24h: string,
    timeInBed: string,
    latencyMinutes: string,
    rem: string,
    deep: string,
    supplementalEpisodeMinutes: seq<int>,
    awake: AwakeBlock,
    timingLabel: string)

  /**
   * How summarising a day ended: nothing printed for a day without a
   * snapshot, the summary, or the TypeError of formatting a missing average
   * heart rate.
   */
  datatype SummaryOutcome = Skipped | Printed(summary: Summary) | HeartRateTypeError

  /** `_summarize_day` after the fetch: a day without a snapshot prints nothing. */
  function SummarizeDay(snapshot: Option<SleepDaySnapshot>): (r: SummaryOutcome)
    ensures r.Skipped? <==> snapshot.None?
    ensures r.HeartRateTypeError? <==> snapshot.Some? && !Presentation.HeartRatePrints(snapshot.value)
    ensures r.Printed? ==> var s := snapshot.value;
                           && r.summary.day == s.day
                           && Presentation.ShowsDuration(r.summary.totalSleep, s.coreSleepSeconds)
                           && Presentation.ShowsDuration(r.summary.supplementalSleep, s.supplementalSleepSeconds)
                           && Presentation.ShowsDuration(r.summary.totalSleep24h, s.totalSleep24hSeconds)
                           && Presentation.ShowsDuration(r.summary.timeInBed, s.timeInBedSeconds)
                           && Presentation.ShowsMinutes(r.summary.latencyMinutes, s.latencySeconds)
                           && Presentation.ShowsDuration(r.summary.rem, s.remSeconds)
                           && Presentation.ShowsDuration(r.summary.deep, s.deepSeconds)
                           && r.summary.awake == AwakePeriods(s, DefaultMaxEntries)
                           && r.summary.timingLabel == s.timingLabel
                           && |r.summary.supplementalEpisodeMinutes| == |s.supplementalEpisodes|
  {
    match snapshot
    case None => Skipped
    case Some(s) =>
      if !Presentation.HeartRatePrints(s) then HeartRateTypeError
      else
        Printed(Summary(
          s.day,
          Presentation.SecondsToHm(Some(s.coreSleepSeconds)),
          Presentation.SecondsToHm(Some(s.supplementalSleepSeconds)),
          Presentation.SecondsToHm(Some(s.totalSleep24hSeconds)),
          Presentation.SecondsToHm(Some(s.timeInBedSeconds)),
          Presentation.SecondsToMinutes(s.latencySeconds),
          Presentation.SecondsToHm(Some(s.remSeconds)),
          Presentation.SecondsToHm(Some(s.deepSeconds)),
          SupplementalMinutes(s),
          AwakePeriods(s, DefaultMaxEntries),
          s.timingLabel))
  }

  /** Snapshots built by the day builder carry no timeline, so their awake block is always empty. */
  lemma BuiltSnapshotsHaveEmptyAwakeBlock(targetDay: int, docs: seq<SleepEpisode>, dailySleep: DailySleepScore, readiness: DailyReadinessScore, hhmm: int -> string)
    requires SleepDayBuilder.BuildSleepDaySnapshot(targetDay, docs, dailySleep, readiness).Success?
    ensures var s := SleepDayBuilder.BuildSleepDaySnapshot(targetDay, docs, dailySleep, readiness).value;
            RenderAwakeBlock(AwakePeriods(s, DefaultMaxEntries), hhmm) == ""
            && SupplementalMinutes(s) == []
  {
  }
}
