/**
 * The decision logic of the journal command's rendering: the clock-of-day
 * buckets for supplemental sleep, the per-bucket summary, the clamped
 * timeline rows, and what a day's entry is.
 */
module SleepJournal {
  import opened Wrappers
  import opened SleepModel
  import Strings
  import Presentation
  import SleepDayBuilder

  datatype SupplementalRange = Morning | Midday | Afternoon | Evening

  /** The enum's members in declaration order, which is the order they are listed in. */
  const RangeOrder: seq<SupplementalRange> := [Morning, Midday, Afternoon, Evening]

  function RangeValue(g: SupplementalRange): string {
    match g
    case Morning => "Morning"
    case Midday => "Midday"
    case Afternoon => "Afternoon"
    case Evening => "Evening"
  }

  /** `_supplemental_range_for_hour`: [6, 10) morning, [10, 14) midday, [14, 18) afternoon, any other hour evening. */
  function RangeForHour(hour: int): (r: SupplementalRange)
    ensures r == Morning <==> 6 <= hour < 10
    ensures r == Midday <==> 10 <= hour < 14
    ensures r == Afternoon <==> 14 <= hour < 18
    ensures r == Evening <==> hour < 6 || hour >= 18
  {
    if 6 <= hour < 10 then Morning
    else if 10 <= hour < 14 then Midday
    else if 14 <= hour < 18 then Afternoon
    else Evening
  }

  // ---------------------------------------------------------------
  // Range summary
  // ---------------------------------------------------------------

  /** The bucket of an episode, by the local hour of its start. */
  function RangeOf(e: SupplementalEpisode, hourOf: int -> int): SupplementalRange {
    RangeForHour(hourOf(e.start))
  }

  function RangeCount(eps: seq<SupplementalEpisode>, hourOf: int -> int, g: SupplementalRange): nat {
    if eps == [] then 0
    else (if RangeOf(eps[0], hourOf) == g then 1 else 0) + RangeCount(eps[1..], hourOf, g)
  }

  /** Sum of whole minutes (`duration_seconds // 60`) of the episodes in bucket `g`. */
  function RangeMinutes(eps: seq<SupplementalEpisode>, hourOf: int -> int, g: SupplementalRange): int {
    if eps == [] then 0
    else (if RangeOf(eps[0], hourOf) == g then eps[0].durationSeconds / 60 else 0) + RangeMinutes(eps[1..], hourOf, g)
  }

  function TotalMinutes(eps: seq<SupplementalEpisode>): int {
    if eps == [] then 0 else eps[0].durationSeconds / 60 + TotalMinutes(eps[1..])
  }

  datatype RangeRow = RangeRow(range: SupplementalRange, minutes: int, count: nat)

  /** The row of bucket `g`, present only when the bucket received an episode. */
  function RowIf(eps: seq<SupplementalEpisode>, hourOf: int -> int, g: SupplementalRange): (r: seq<RangeRow>)
    ensures |r| <= 1
    ensures r != [] <==> RangeCount(eps, hourOf, g) > 0
    ensures r != [] ==> r[0] == RangeRow(g, RangeMinutes(eps, hourOf, g), RangeCount(eps, hourOf, g))
  {
    if RangeCount(eps, hourOf, g) > 0 then [RangeRow(g, RangeMinutes(eps, hourOf, g), RangeCount(eps, hourOf, g))] else []
  }

  function RangeIndex(g: SupplementalRange): nat {
    match g
    case Morning => 0
    case Midday => 1
    case Afternoon => 2
    case Evening => 3
  }

  /** The four buckets' rows, in enum order. */
  function BucketRows(eps: seq<SupplementalEpisode>, hourOf: int -> int): seq<RangeRow> {
    RowIf(eps, hourOf, Morning) + RowIf(eps, hourOf, Midday) + RowIf(eps, hourOf, Afternoon) + RowIf(eps, hourOf, Evening)
  }

  lemma RowsNameTheirBuckets(eps: seq<SupplementalEpisode>, hourOf: int -> int)
    ensures forall g :: RangeCount(eps, hourOf, g) > 0 <==> exists row :: row in BucketRows(eps, hourOf) && row.range == g
  {
    var m, d, a, e := RowIf(eps, hourOf, Morning), RowIf(eps, hourOf, Midday), RowIf(eps, hourOf, Afternoon), RowIf(eps, hourOf, Evening);
    var rows := BucketRows(eps, hourOf);
    assert forall row :: row in rows <==> row in m || row in d || row in a || row in e;
    forall g
      ensures RangeCount(eps, hourOf, g) > 0 ==> exists row :: row in rows && row.range == g
    {
      if RangeCount(eps, hourOf, g) > 0 {
        var r := RowIf(eps, hourOf, g);
        assert r[0] in rows;
      }
    }
  }

  lemma RowsCarryTheirTotals(eps: seq<SupplementalEpisode>, hourOf: int -> int)
    ensures forall row :: row in BucketRows(eps, hourOf) ==>
              row.count == RangeCount(eps, hourOf, row.range) > 0 && row.minutes == RangeMinutes(eps, hourOf, row.range)
  {
  }

  lemma RowsInEnumOrder(eps: seq<SupplementalEpisode>, hourOf: int -> int)
    ensures var rows := BucketRows(eps, hourOf);
            forall i, j :: 0 <= i < j < |rows| ==> RangeIndex(rows[i].range) < RangeIndex(rows[j].range)
  {
  }

  /**
   * The rows of `_render_supplemental_range_summary`: one per bucket that
   * received an episode, in enum order, with its minute total and count.
   */
  function RangeRows(eps: seq<SupplementalEpisode>, hourOf: int -> int): (rows: seq<RangeRow>)
    ensures forall g :: RangeCount(eps, hourOf, g) > 0 <==> exists row :: row in rows && row.range == g
    ensures forall row :: row in rows ==>
              row.count == RangeCount(eps, hourOf, row.range) > 0 && row.minutes == RangeMinutes(eps, hourOf, row.range)
    ensures forall i, j :: 0 <= i < j < |rows| ==> RangeIndex(rows[i].range) < RangeIndex(rows[j].range)
  {
    RowsNameTheirBuckets(eps, hourOf);
    RowsCarryTheirTotals(eps, hourOf);
    RowsInEnumOrder(eps, hourOf);
    BucketRows(eps, hourOf)
  }

  function SumCounts(rows: seq<RangeRow>): int {
    if rows == [] then 0 else rows[0].count + SumCounts(rows[1..])
  }

  function SumMinutes(rows: seq<RangeRow>): int {
    if rows == [] then 0 else rows[0].minutes + SumMinutes(rows[1..])
  }

  lemma {:induction false} SumsDistribute(a: seq<RangeRow>, b: seq<RangeRow>)
    ensures SumCounts(a + b) == SumCounts(a) + SumCounts(b)
    ensures SumMinutes(a + b) == SumMinutes(a) + SumMinutes(b)
  {
    if a != [] {
      assert (a + b)[0] == a[0];
      assert (a + b)[1..] == a[1..] + b;
      SumsDistribute(a[1..], b);
    } else {
      assert a + b == b;
    }
  }

  lemma {:induction false} BucketsPartition(eps: seq<SupplementalEpisode>, hourOf: int -> int)
    ensures RangeCount(eps, hourOf, Morning) + RangeCount(eps, hourOf, Midday)
            + RangeCount(eps, hourOf, Afternoon) + RangeCount(eps, hourOf, Evening) == |eps|
    ensures RangeMinutes(eps, hourOf, Morning) + RangeMinutes(eps, hourOf, Midday)
            + RangeMinutes(eps, hourOf, Afternoon) + RangeMinutes(eps, hourOf, Evening) == TotalMinutes(eps)
  {
    if eps != [] {
      BucketsPartition(eps[1..], hourOf);
    }
  }

  /** Every episode is counted in exactly one row, and every minute too: the rows lose nothing. */
  lemma RangeRowsAccountForAll(eps: seq<SupplementalEpisode>, hourOf: int -> int)
    ensures SumCounts(RangeRows(eps, hourOf)) == |eps|
    ensures SumMinutes(RangeRows(eps, hourOf)) == TotalMinutes(eps)
  {
    var m, d, a, e := RowIf(eps, hourOf, Morning), RowIf(eps, hourOf, Midday), RowIf(eps, hourOf, Afternoon), RowIf(eps, hourOf, Evening);
    SumsDistribute(m, d);
    SumsDistribute(m + d, a);
    SumsDistribute(m + d + a, e);
    RowIfSums(eps, hourOf, Morning);
    RowIfSums(eps, hourOf, Midday);
    RowIfSums(eps, hourOf, Afternoon);
    RowIfSums(eps, hourOf, Evening);
    BucketsPartition(eps, hourOf);
  }

  /** A bucket's row, present or not, contributes exactly the bucket's count and minutes. */
  lemma RowIfSums(eps: seq<SupplementalEpisode>, hourOf: int -> int, g: SupplementalRange)
    ensures SumCounts(RowIf(eps, hourOf, g)) == RangeCount(eps, hourOf, g)
    ensures SumMinutes(RowIf(eps, hourOf, g)) == RangeMinutes(eps, hourOf, g)
  {
    if RangeCount(eps, hourOf, g) == 0 {
      EmptyBucketHasNoMinutes(eps, hourOf, g);
    }
  }

  lemma {:induction false} EmptyBucketHasNoMinutes(eps: seq<SupplementalEpisode>, hourOf: int -> int, g: SupplementalRange)
    requires RangeCount(eps, hourOf, g) == 0
    ensures RangeMinutes(eps, hourOf, g) == 0
  {
    if eps != [] {
      EmptyBucketHasNoMinutes(eps[1..], hourOf, g);
    }
  }

  const Bullet := "      \U{2022} "
  const RangeHeader := "      Supplemental sleep by time range:"

  /** One summary line: the range, its minutes, and a count suffix for more than one episode. */
  function RangeLine(row: RangeRow): string {
    var suffix := if row.count > 1 then " (" + Strings.IntToDecimal(row.count) + " episodes)" else "";
    Bullet + RangeValue(row.range) + ": " + Strings.IntToDecimal(row.minutes) + "m" + suffix
  }

  /** The count suffix appears exactly when the range holds more than one episode. */
  lemma RangeLineSuffix(row: RangeRow)
    ensures row.count > 1 <==> Strings.EndsWith(RangeLine(row), " episodes)")
  {
    var r := RangeLine(row);
    assert row.count > 1 ==> r[|r| - |" episodes)"|..] == " episodes)";
    assert row.count <= 1 ==> r[|r| - 1] == 'm';
  }

  /** The lines of the range summary: the header, then one line per row in order. */
  function RangeSummaryLines(rows: seq<RangeRow>): (lines: seq<string>)
    ensures |lines| == 1 + |rows| && lines[0] == RangeHeader
    ensures forall i :: 0 <= i < |rows| ==> lines[1 + i] == RangeLine(rows[i])
  {
    var body := RangeLines(rows);
    var lines := [RangeHeader] + body;
    assert forall i :: 0 <= i < |rows| ==> lines[1 + i] == body[i];
    lines
  }

  function RangeLines(rows: seq<RangeRow>): (lines: seq<string>)
    ensures |lines| == |rows|
    ensures forall i :: 0 <= i < |rows| ==> lines[i] == RangeLine(rows[i])
  {
    seq(|rows|, i requires 0 <= i < |rows| => RangeLine(rows[i]))
  }

  /** `_render_supplemental_range_summary`, with the local hour of an instant supplied as `hourOf`. */
  function RenderRangeSummary(eps: seq<SupplementalEpisode>, hourOf: int -> int): string {
    Strings.JoinLines(RangeSummaryLines(RangeRows(eps, hourOf)))
  }

  // ---------------------------------------------------------------
  // Timeline rows
  // ---------------------------------------------------------------

  /** A printed timeline line: start, end clamped to the night's end, stage label. */
  datatype TimelineRow = TimelineRow(start: int, end: int, stageLabel: string)

  /** `_render_sleep_timeline`: None stands for "Sleep timeline: unavailable". */
  function TimelineRows(s: SleepDaySnapshot): (r: Option<seq<TimelineRow>>)
    ensures r.None? <==> s.timeline.None?
    ensures r.Some? ==> |r.value| == |s.timeline.value.segments|
    ensures r.Some? ==> forall i :: 0 <= i < |r.value| ==>
              var seg := s.timeline.value.segments[i];
              && r.value[i].start == seg.start
              && r.value[i].end <= s.nightEnd && r.value[i].end <= seg.end
              && (r.value[i].end == seg.end || r.value[i].end == s.nightEnd)
              && r.value[i].stageLabel == Presentation.StageLabel(seg.stage)
  {
    match s.timeline
    case None => None
    case Some(t) =>
      Some(seq(|t.segments|, i requires 0 <= i < |t.segments| =>
        TimelineRow(t.segments[i].start, Presentation.Min(t.segments[i].end, s.nightEnd), Presentation.StageLabel(t.segments[i].stage))))
  }

  const TimelineUnavailable := "Sleep timeline: unavailable\n"

  /** Clamping changes nothing when no segment runs past the night's end. */
  lemma ClampIsIdentityInsideNight(s: SleepDaySnapshot)
    requires s.timeline.Some?
    requires forall i :: 0 <= i < |s.timeline.value.segments| ==> s.timeline.value.segments[i].end <= s.nightEnd
    ensures forall i :: 0 <= i < |s.timeline.value.segments| ==> TimelineRows(s).value[i].end == s.timeline.value.segments[i].end
  {
  }

  /** Snapshots built by the day builder never carry a timeline, so the journal always prints "unavailable". */
  lemma BuiltSnapshotsHaveNoTimeline(targetDay: int, docs: seq<SleepEpisode>, dailySleep: DailySleepScore, readiness: DailyReadinessScore)
    requires SleepDayBuilder.BuildSleepDaySnapshot(targetDay, docs, dailySleep, readiness).Success?
    ensures TimelineRows(SleepDayBuilder.BuildSleepDaySnapshot(targetDay, docs, dailySleep, readiness).value).None?
  {
  }

  // ---------------------------------------------------------------
  // A day's entry
  // ---------------------------------------------------------------

  /**
   * The parts of a journal entry the model computes: the duration texts,
   * the timeline rows, and the range summary shown when there are
   * supplemental episodes.
   */
  datatype JournalEntry =
    | MissingDay(day: int)
    | Entry(
        day: int,
        coreSleep: string,
        supplementalSleep: string,
        totalSleep24h: string,
        timeInBed: string,
        latencyMinutes: string,
        rem: string,
        deep: string,
        timeline: Option<seq<TimelineRow>>,
        rangeSummary: Option<string>)

  /**
   * How rendering a day ended: the entry printed, the AttributeError of a
   * field the snapshot lacks, or the TypeError of formatting a missing
   * average heart rate.
   */
  datatype RenderOutcome = Printed(entry: JournalEntry) | AttributeError | HeartRateTypeError

  /**
   * The entry for a day with a snapshot, as the render evidently intends: it
   * raises exactly when the average heart rate is missing, and otherwise
   * shows each duration so that it reads back.
   */
  function RenderSnapshot(s: SleepDaySnapshot, hourOf: int -> int): (r: RenderOutcome)
    ensures r.HeartRateTypeError? <==> !Presentation.HeartRatePrints(s)
    ensures r.Printed? <==> Presentation.HeartRatePrints(s)
    ensures r.Printed? ==> && r.entry.Entry? && r.entry.day == s.day
                           && Presentation.ShowsDuration(r.entry.coreSleep, s.coreSleepSeconds)
                           && Presentation.ShowsDuration(r.entry.supplementalSleep, s.supplementalSleepSeconds)
                           && Presentation.ShowsDuration(r.entry.totalSleep24h, s.totalSleep24hSeconds)
                           && Presentation.ShowsDuration(r.entry.timeInBed, s.timeInBedSeconds)
                           && Presentation.ShowsMinutes(r.entry.latencyMinutes, s.latencySeconds)
                           && Presentation.ShowsDuration(r.entry.rem, s.remSeconds)
                           && Presentation.ShowsDuration(r.entry.deep, s.deepSeconds)
                           && r.entry.timeline == TimelineRows(s)
                           && (r.entry.rangeSummary.Some? <==> s.supplementalEpisodes != [])
  {
    if !Presentation.HeartRatePrints(s) then HeartRateTypeError
    else
      Printed(Entry(
        s.day,
        Presentation.SecondsToHm(Some(s.coreSleepSeconds)),
        Presentation.SecondsToHm(Some(s.supplementalSleepSeconds)),
        Presentation.SecondsToHm(Some(s.totalSleep24hSeconds)),
        Presentation.SecondsToHm(Some(s.timeInBedSeconds)),
        Presentation.SecondsToMinutes(s.latencySeconds),
        Presentation.SecondsToHm(Some(s.remSeconds)),
        Presentation.SecondsToHm(Some(s.deepSeconds)),
        TimelineRows(s),
        if s.supplementalEpisodes != [] then Some(RenderRangeSummary(s.supplementalEpisodes, hourOf)) else None))
  }

  /**
   * `_render_day` as written: a day with a snapshot reaches the temperature
   * block, which reads attributes the core snapshot does not have, before
   * the heart rate is formatted.
   */
  function RenderDayAsWritten(day: int, snapshot: Option<SleepDaySnapshot>): (r: RenderOutcome)
    ensures snapshot.None? ==> r == Printed(MissingDay(day))
    ensures snapshot.Some? ==> r == AttributeError
  {
    if snapshot.None? then Printed(MissingDay(day)) else AttributeError
  }

  /** `_render_day` with the snapshot rendered from fields it has. */
  function RenderDay(day: int, snapshot: Option<SleepDaySnapshot>, hourOf: int -> int): (r: RenderOutcome)
    ensures !r.AttributeError?
    ensures r.HeartRateTypeError? <==> snapshot.Some? && !Presentation.HeartRatePrints(snapshot.value)
    ensures r.Printed? ==> (snapshot.None? <==> r.entry == MissingDay(day))
    ensures r.Printed? && snapshot.Some? ==> r.entry.Entry? && r.entry.day == snapshot.value.day
  {
    if snapshot.None? then Printed(MissingDay(day)) else RenderSnapshot(snapshot.value, hourOf)
  }

  /**
   * Every day that has data fails under the code as written; under the
   * correction it renders exactly when its average heart rate can be formatted.
   */
  lemma RenderDayDiscrepancy(day: int, s: SleepDaySnapshot, hourOf: int -> int)
    ensures RenderDayAsWritten(day, Some(s)) == AttributeError
    ensures RenderDay(day, Some(s), hourOf).Printed? <==> Presentation.HeartRatePrints(s)
    ensures RenderDayAsWritten(day, None) == RenderDay(day, None, hourOf)
  {
  }
}
