/**
 * Decoding of Oura's `sleep_phase_5_min` string into a stage timeline, and the
 * gap-between-main-sleeps rule for supplemental (nap) episodes.
 */
module SleepTimelineBuilder {
  import opened Wrappers
  import opened SleepModel

  const Resolution := 300
  const TimelineSource := "sleep_phase_5_min"

  /** The code table: '1' deep, '2' light, '3' REM, '4' awake; anything else is unknown. */
  function StageOfCode(c: char): (r: Option<SleepStage>)
    ensures r.Some? <==> c in {'1', '2', '3', '4'}
  {
    match c
    case '1' => Some(Deep)
    case '2' => Some(Light)
    case '3' => Some(Rem)
    case '4' => Some(Awake)
    case _ => None
  }

  lemma StageCodesDistinct(a: char, b: char)
    requires StageOfCode(a).Some? && StageOfCode(b).Some?
    ensures StageOfCode(a) == StageOfCode(b) <==> a == b
  {
  }

  // ---------------------------------------------------------------
  // The scan, as the source's loop runs it
  // ---------------------------------------------------------------

  /** The run being accumulated: its stage and the instant it began. */
  datatype OpenRun = OpenRun(stage: SleepStage, start: int)

  /** Loop state: the closed segments and the open run, if any. */
  datatype Scan = Scan(closed: seq<Segment>, open: Option<OpenRun>)

  /** The instant bucket `k` begins. */
  function BucketStart(base: int, k: int): int {
    base + Resolution * k
  }

  /** One loop iteration on code `c` whose bucket begins at `t`. */
  function Step(sc: Scan, c: char, t: int): Scan {
    match StageOfCode(c)
    case None => sc
    case Some(stage) =>
      if sc.open.Some? && sc.open.value.stage == stage then sc
      else
        var closed := if sc.open.Some? then sc.closed + [Segment(sc.open.value.start, t, sc.open.value.stage)] else sc.closed;
        Scan(closed, Some(OpenRun(stage, t)))
  }

  /** The loop state after the first `n` codes. */
  function ScanPrefix(phase: string, base: int, n: nat): Scan
    requires n <= |phase|
  {
    if n == 0 then Scan([], None)
    else Step(ScanPrefix(phase, base, n - 1), phase[n - 1], BucketStart(base, n - 1))
  }

  /** Closing the open run at `end`, as done after the loop. */
  function Close(sc: Scan, end: int): seq<Segment> {
    if sc.open.Some? then sc.closed + [Segment(sc.open.value.start, end, sc.open.value.stage)] else sc.closed
  }

  /** The segments the source would produce if the string stopped after `n` codes. */
  function SegmentsUpTo(phase: string, base: int, n: nat): seq<Segment>
    requires n <= |phase|
  {
    Close(ScanPrefix(phase, base, n), BucketStart(base, n))
  }

  /**
   * `build_sleep_stage_timeline`: no timeline for an absent or empty phase
   * string; otherwise the run-merged segments anchored at bedtime start.
   */
  function BuildSleepStageTimeline(core: SleepEpisode): (r: Option<Timeline>)
    ensures r.None? <==> core.sleepPhase5Min.None? || core.sleepPhase5Min.value == []
    ensures r.Some? ==> r.value.source == TimelineSource && r.value.resolutionSeconds == Resolution
    ensures r.Some? ==> Chain(r.value.segments)
    ensures r.Some? ==>
              (r.value.segments == [] <==> forall i :: 0 <= i < |core.sleepPhase5Min.value| ==> StageOfCode(core.sleepPhase5Min.value[i]).None?)
    ensures r.Some? && r.value.segments != [] ==>
              Last(r.value.segments).end == core.bedtimeStart + Resolution * |core.sleepPhase5Min.value|
  {
    match core.sleepPhase5Min
    case None => None
    case Some(phase) =>
      if phase == [] then None
      else
        var segs := SegmentsUpTo(phase, core.bedtimeStart, |phase|);
        SegmentsGood(phase, core.bedtimeStart, |phase|);
        NoneKnownIffAllUnknown(phase, |phase|);
        Some(Timeline(TimelineSource, Resolution, segs))
  }

  // ---------------------------------------------------------------
  // What the segments mean
  // ---------------------------------------------------------------

  function Last(s: seq<Segment>): Segment
    requires s != []
  {
    s[|s| - 1]
  }

  /** Positive segments, each ending where the next begins, with the stage changing at every boundary. */
  predicate Chain(s: seq<Segment>) {
    && (forall i :: 0 <= i < |s| ==> s[i].start < s[i].end)
    && (forall i :: 0 <= i < |s| - 1 ==> s[i].end == s[i + 1].start && s[i].stage != s[i + 1].stage)
  }

  /** The stage of the last recognised code among the first `n`, if any. */
  function LastKnown(phase: string, n: nat): Option<SleepStage>
    requires n <= |phase|
  {
    if n == 0 then None
    else if StageOfCode(phase[n - 1]).Some? then StageOfCode(phase[n - 1])
    else LastKnown(phase, n - 1)
  }

  /** The stage the segments show at instant `t`: that of the first segment containing it. */
  function StageAt(s: seq<Segment>, t: int): Option<SleepStage> {
    if s == [] then None
    else if s[0].start <= t < s[0].end then Some(s[0].stage)
    else StageAt(s[1..], t)
  }

  /**
   * Everything the segments of a prefix satisfy: they form a chain, the
   * last one ends at the prefix's end and shows its last recognised code,
   * the first starts at or after bedtime start (exactly at it when the first
   * code is recognised), and at every instant they show the last code
   * recognised at or before that instant's bucket.
   */
  ghost predicate Good(phase: string, base: int, n: nat, s: seq<Segment>)
    requires n <= |phase|
  {
    Shape(phase, base, n, s) && Shows(phase, base, n, s)
  }

  predicate Shape(phase: string, base: int, n: nat, s: seq<Segment>)
    requires n <= |phase|
  {
    && Chain(s)
    && (s == [] <==> LastKnown(phase, n).None?)
    && (s != [] ==> Last(s).end == BucketStart(base, n) && Some(Last(s).stage) == LastKnown(phase, n))
    && (s != [] ==> s[0].start >= base && (StageOfCode(phase[0]).Some? ==> s[0].start == base))
  }

  ghost predicate Shows(phase: string, base: int, n: nat, s: seq<Segment>)
    requires n <= |phase|
  {
    forall t :: StageAt(s, t) == (if base <= t < BucketStart(base, n) then LastKnown(phase, (t - base) / Resolution + 1) else None)
  }

  function ExtendLast(s: seq<Segment>, end: int): seq<Segment>
    requires s != []
  {
    s[..|s| - 1] + [Last(s).(end := end)]
  }

  /** Without an open run there are no closed segments; an open run began before the prefix's end. */
  lemma {:induction false} ScanShape(phase: string, base: int, n: nat)
    requires n <= |phase|
    ensures ScanPrefix(phase, base, n).open.None? ==> ScanPrefix(phase, base, n).closed == []
    ensures ScanPrefix(phase, base, n).open.Some? ==> ScanPrefix(phase, base, n).open.value.start < BucketStart(base, n)
  {
    if n > 0 {
      ScanShape(phase, base, n - 1);
    }
  }

  /** One more code either stretches the last segment or appends a one-bucket segment. */
  lemma {:induction false} SegmentsStep(phase: string, base: int, n: nat)
    requires n < |phase|
    ensures var before, after := SegmentsUpTo(phase, base, n), SegmentsUpTo(phase, base, n + 1);
            var code := StageOfCode(phase[n]);
            if code.None? || (before != [] && Some(Last(before).stage) == code) then
              (before == [] ==> after == []) && (before != [] ==> after == ExtendLast(before, BucketStart(base, n + 1)))
            else
              after == before + [Segment(BucketStart(base, n), BucketStart(base, n + 1), code.value)]
  {
    ScanShape(phase, base, n);
  }

  lemma {:induction false} StageAtAppend(s: seq<Segment>, x: Segment, t: int)
    ensures StageAt(s + [x], t) == if StageAt(s, t).Some? then StageAt(s, t) else StageAt([x], t)
  {
    if s != [] {
      assert (s + [x])[1..] == s[1..] + [x];
      StageAtAppend(s[1..], x, t);
    }
  }

  /** Stretching the last segment changes nothing before its old end. */
  lemma {:induction false} StageAtExtend(s: seq<Segment>, end: int, t: int)
    requires s != [] && t < Last(s).end <= end
    ensures StageAt(ExtendLast(s, end), t) == StageAt(s, t)
  {
    if |s| > 1 {
      assert ExtendLast(s, end)[0] == s[0];
      assert ExtendLast(s, end)[1..] == ExtendLast(s[1..], end);
      StageAtExtend(s[1..], end, t);
    }
  }

  /** In a chain, an instant shows a stage only between the first start and the last end. */
  lemma {:induction false} StageAtBounds(s: seq<Segment>, t: int)
    requires Chain(s)
    ensures StageAt(s, t).Some? ==> s != [] && s[0].start <= t < Last(s).end
  {
    if s != [] {
      ChainOrdered(s);
      if !(s[0].start <= t < s[0].end) {
        StageAtBounds(s[1..], t);
        if |s| > 1 {
          assert Last(s[1..]) == Last(s);
        }
      }
    }
  }

  lemma {:induction false} ChainOrdered(s: seq<Segment>)
    requires Chain(s) && s != []
    ensures s[0].start <= Last(s).start && s[0].end <= Last(s).end
    ensures |s| > 1 ==> s[0].end <= Last(s).start && s[1].start <= Last(s).start
  {
    if |s| > 1 {
      ChainOrdered(s[1..]);
    }
  }

  /** In a chain, the last segment alone decides its own span. */
  lemma {:induction false} StageAtLast(s: seq<Segment>, t: int)
    requires Chain(s) && s != [] && Last(s).start <= t < Last(s).end
    ensures StageAt(s, t) == Some(Last(s).stage)
  {
    if |s| > 1 {
      ChainOrdered(s);
      StageAtLast(s[1..], t);
    }
  }

  lemma BucketOf(base: int, n: int, t: int)
    requires BucketStart(base, n) <= t < BucketStart(base, n + 1)
    ensures (t - base) / Resolution == n
  {
  }

  lemma {:induction false} LastKnownMonotone(phase: string, n: nat)
    requires n < |phase|
    ensures StageOfCode(phase[n]).None? ==> LastKnown(phase, n + 1) == LastKnown(phase, n)
    ensures StageOfCode(phase[n]).Some? ==> LastKnown(phase, n + 1) == StageOfCode(phase[n])
  {
  }

  lemma {:induction false} SegmentsGood(phase: string, base: int, n: nat)
    requires n <= |phase|
    ensures Good(phase, base, n, SegmentsUpTo(phase, base, n))
  {
    if n == 0 {
      return;
    }
    var m := n - 1;
    SegmentsGood(phase, base, m);
    SegmentsStep(phase, base, m);
    var before, after := SegmentsUpTo(phase, base, m), SegmentsUpTo(phase, base, n);
    var code := StageOfCode(phase[m]);
    if code.None? || (before != [] && Some(Last(before).stage) == code) {
      if before != [] {
        ExtendShape(phase, base, m, before);
        ExtendShows(phase, base, m, before);
      }
    } else {
      AppendShape(phase, base, m, before);
      AppendShows(phase, base, m, before);
    }
  }

  lemma ExtendShape(phase: string, base: int, m: nat, before: seq<Segment>)
    requires m < |phase| && before != [] && Shape(phase, base, m, before)
    requires StageOfCode(phase[m]).None? || Some(Last(before).stage) == StageOfCode(phase[m])
    ensures Shape(phase, base, m + 1, ExtendLast(before, BucketStart(base, m + 1)))
  {
    LastKnownMonotone(phase, m);
    var after := ExtendLast(before, BucketStart(base, m + 1));
    assert Chain(after) by {
      forall i | 0 <= i < |after| - 1
        ensures after[i].end == after[i + 1].start && after[i].stage != after[i + 1].stage
      {
        assert after[i] == before[i];
        if i + 1 < |after| - 1 {
          assert after[i + 1] == before[i + 1];
        }
      }
    }
  }

  lemma ExtendShows(phase: string, base: int, m: nat, before: seq<Segment>)
    requires m < |phase| && before != [] && Shape(phase, base, m, before) && Shows(phase, base, m, before)
    requires StageOfCode(phase[m]).None? || Some(Last(before).stage) == StageOfCode(phase[m])
    ensures Shows(phase, base, m + 1, ExtendLast(before, BucketStart(base, m + 1)))
  {
    LastKnownMonotone(phase, m);
    ExtendShape(phase, base, m, before);
    var lo, hi := BucketStart(base, m), BucketStart(base, m + 1);
    var after := ExtendLast(before, hi);
    forall t
      ensures StageAt(after, t) == (if base <= t < hi then LastKnown(phase, (t - base) / Resolution + 1) else None)
    {
      if t < lo {
        StageAtExtend(before, hi, t);
      } else if t < hi {
        assert Last(after).start == Last(before).start;
        StageAtLast(after, t);
        BucketOf(base, m, t);
      } else {
        StageAtBounds(after, t);
      }
    }
  }

  lemma AppendShape(phase: string, base: int, m: nat, before: seq<Segment>)
    requires m < |phase| && Shape(phase, base, m, before)
    requires StageOfCode(phase[m]).Some? && (before == [] || Some(Last(before).stage) != StageOfCode(phase[m]))
    ensures Shape(phase, base, m + 1, before + [Segment(BucketStart(base, m), BucketStart(base, m + 1), StageOfCode(phase[m]).value)])
  {
    LastKnownMonotone(phase, m);
    NoneKnownIffAllUnknown(phase, m);
    var after := before + [Segment(BucketStart(base, m), BucketStart(base, m + 1), StageOfCode(phase[m]).value)];
    assert Chain(after) by {
      forall i | 0 <= i < |after| - 1
        ensures after[i].end == after[i + 1].start && after[i].stage != after[i + 1].stage
      {
        assert after[i] == before[i];
      }
    }
    if before != [] {
      assert after[0] == before[0];
    }
  }

  lemma AppendShows(phase: string, base: int, m: nat, before: seq<Segment>)
    requires m < |phase| && Shows(phase, base, m, before)
    requires StageOfCode(phase[m]).Some?
    ensures Shows(phase, base, m + 1, before + [Segment(BucketStart(base, m), BucketStart(base, m + 1), StageOfCode(phase[m]).value)])
  {
    LastKnownMonotone(phase, m);
    var lo, hi := BucketStart(base, m), BucketStart(base, m + 1);
    var x := Segment(lo, hi, StageOfCode(phase[m]).value);
    forall t
      ensures StageAt(before + [x], t) == (if base <= t < hi then LastKnown(phase, (t - base) / Resolution + 1) else None)
    {
      StageAtAppend(before, x, t);
      if lo <= t < hi {
        BucketOf(base, m, t);
      }
    }
  }

  lemma {:induction false} NoneKnownIffAllUnknown(phase: string, n: nat)
    requires n <= |phase|
    ensures LastKnown(phase, n).None? <==> forall i :: 0 <= i < n ==> StageOfCode(phase[i]).None?
  {
    if n > 0 {
      NoneKnownIffAllUnknown(phase, n - 1);
    }
  }

  /**
   * The timeline shows, at every instant from bedtime start to the end of
   * the last bucket, the last recognised code at or before that instant's
   * bucket, and nothing elsewhere.
   */
  lemma TimelineStageAt(core: SleepEpisode, t: int)
    requires core.sleepPhase5Min.Some? && core.sleepPhase5Min.value != []
    ensures var phase, base := core.sleepPhase5Min.value, core.bedtimeStart;
            StageAt(BuildSleepStageTimeline(core).value.segments, t)
            == if base <= t < base + Resolution * |phase| then LastKnown(phase, (t - base) / Resolution + 1) else None
  {
    SegmentsGood(core.sleepPhase5Min.value, core.bedtimeStart, |core.sleepPhase5Min.value|);
  }

  /** Every bucket with a recognised code shows that code. */
  lemma BucketShowsItsCode(core: SleepEpisode, k: nat)
    requires core.sleepPhase5Min.Some? && k < |core.sleepPhase5Min.value|
    requires StageOfCode(core.sleepPhase5Min.value[k]).Some?
    ensures StageAt(BuildSleepStageTimeline(core).value.segments, BucketStart(core.bedtimeStart, k))
            == StageOfCode(core.sleepPhase5Min.value[k])
  {
    TimelineStageAt(core, BucketStart(core.bedtimeStart, k));
    BucketOf(core.bedtimeStart, k, BucketStart(core.bedtimeStart, k));
  }

  function TotalDuration(s: seq<Segment>): int {
    if s == [] then 0 else (s[0].end - s[0].start) + TotalDuration(s[1..])
  }

  lemma {:induction false} ChainTelescopes(s: seq<Segment>)
    requires Chain(s) && s != []
    ensures TotalDuration(s) == Last(s).end - s[0].start
  {
    if |s| > 1 {
      ChainTelescopes(s[1..]);
    }
  }

  /** With every code recognised, the segments cover exactly 300 seconds per code. */
  lemma AllRecognisedCoversNight(core: SleepEpisode)
    requires core.sleepPhase5Min.Some? && core.sleepPhase5Min.value != []
    requires forall i :: 0 <= i < |core.sleepPhase5Min.value| ==> StageOfCode(core.sleepPhase5Min.value[i]).Some?
    ensures var segs := BuildSleepStageTimeline(core).value.segments;
            segs != [] && segs[0].start == core.bedtimeStart
            && TotalDuration(segs) == Resolution * |core.sleepPhase5Min.value|
  {
    var phase, base := core.sleepPhase5Min.value, core.bedtimeStart;
    SegmentsGood(phase, base, |phase|);
    NoneKnownIffAllUnknown(phase, |phase|);
    ChainTelescopes(SegmentsUpTo(phase, base, |phase|));
  }

  // ---------------------------------------------------------------
  // Supplemental episodes between two main sleeps
  // ---------------------------------------------------------------

  /** A non-core long sleep that ended strictly before the core sleep began. */
  predicate EndedBefore(core: SleepEpisode, d: SleepEpisode) {
    d.id != core.id && d.kind == LongSleep && d.bedtimeEnd < core.bedtimeStart
  }

  /** `_previous_core_sleep_end`: the latest end among the long sleeps that ended before the core sleep. */
  function PreviousCoreSleepEnd(core: SleepEpisode, docs: seq<SleepEpisode>): (r: Option<int>)
    ensures r.None? <==> forall d :: d in docs ==> !EndedBefore(core, d)
    ensures r.Some? ==> exists d :: d in docs && EndedBefore(core, d) && d.bedtimeEnd == r.value
    ensures r.Some? ==> forall d :: d in docs && EndedBefore(core, d) ==> d.bedtimeEnd <= r.value
    ensures r.Some? ==> r.value < core.bedtimeStart
  {
    if docs == [] then None
    else
      var rest := PreviousCoreSleepEnd(core, docs[1..]);
      var d := docs[0];
      assert forall e :: e in docs ==> e == d || e in docs[1..];
      if !EndedBefore(core, d) then rest
      else if rest.None? || d.bedtimeEnd >= rest.value then Some(d.bedtimeEnd)
      else rest
  }

  /** The per-episode checks of `build_supplemental_sleep_episodes`, in the source's order. */
  predicate Admitted(core: SleepEpisode, prev: Option<int>, d: SleepEpisode) {
    && d.id != core.id
    && d.totalSleepDuration.GetOr(0) != 0
    && d.bedtimeEnd <= core.bedtimeStart
    && !(prev.Some? && d.bedtimeStart < prev.value)
  }

  function ToSupplemental(d: SleepEpisode): SupplementalEpisode {
    SupplementalEpisode(d.bedtimeStart, d.bedtimeEnd, d.totalSleepDuration.GetOr(0))
  }

  /** The admitted episodes, in input order. */
  function Collect(core: SleepEpisode, prev: Option<int>, docs: seq<SleepEpisode>): (r: seq<SupplementalEpisode>)
    ensures |r| <= |docs|
    ensures forall e :: e in r <==> exists d :: d in docs && Admitted(core, prev, d) && e == ToSupplemental(d)
  {
    if docs == [] then []
    else
      var rest := Collect(core, prev, docs[1..]);
      assert forall d :: d in docs ==> d == docs[0] || d in docs[1..];
      if Admitted(core, prev, docs[0]) then [ToSupplemental(docs[0])] + rest else rest
  }

  predicate SortedByStart(s: seq<SupplementalEpisode>) {
    forall i, j :: 0 <= i < j < |s| ==> s[i].start <= s[j].start
  }

  /** Inserts `x` after every element that does not start later, as a stable sort does. */
  function InsertByStart(x: SupplementalEpisode, s: seq<SupplementalEpisode>): (r: seq<SupplementalEpisode>)
    ensures multiset(r) == multiset(s) + multiset{x}
  {
    if s == [] then [x]
    else if x.start < s[0].start then [x] + s
    else
      assert s == [s[0]] + s[1..];
      [s[0]] + InsertByStart(x, s[1..])
  }

  lemma {:induction false} InsertKeepsSorted(x: SupplementalEpisode, s: seq<SupplementalEpisode>)
    requires SortedByStart(s)
    ensures SortedByStart(InsertByStart(x, s))
  {
    if s != [] && x.start >= s[0].start {
      var rest := InsertByStart(x, s[1..]);
      InsertKeepsSorted(x, s[1..]);
      forall e | e in rest
        ensures s[0].start <= e.start
      {
        assert e in multiset(rest);
        if e != x {
          assert e in multiset(s[1..]);
          assert e in s[1..];
        }
      }
      var r := [s[0]] + rest;
      assert forall i :: 1 <= i < |r| ==> r[i] == rest[i - 1];
    }
  }

  /** `list.sort(key=start)`: stable sorting by start. */
  function SortByStart(s: seq<SupplementalEpisode>): (r: seq<SupplementalEpisode>)
    ensures SortedByStart(r)
    ensures multiset(r) == multiset(s)
  {
    if s == [] then []
    else
      assert s == s[..|s| - 1] + [s[|s| - 1]];
      InsertKeepsSorted(s[|s| - 1], SortByStart(s[..|s| - 1]));
      InsertByStart(s[|s| - 1], SortByStart(s[..|s| - 1]))
  }

  /**
   * `build_supplemental_sleep_episodes`. The target day the source accepts
   * is never read, so the model does not take it.
   */
  function BuildSupplementalSleepEpisodes(docs: seq<SleepEpisode>, core: SleepEpisode): (r: seq<SupplementalEpisode>)
    ensures SortedByStart(r)
    ensures multiset(r) == multiset(Collect(core, PreviousCoreSleepEnd(core, docs), docs))
  {
    SortByStart(Collect(core, PreviousCoreSleepEnd(core, docs), docs))
  }

  /**
   * What every supplemental episode satisfies: it comes from a non-core
   * episode with a non-zero duration, which it copies; it ends no later
   * than the core sleep starts; and it starts no earlier than the previous
   * main sleep ended, when there is one.
   */
  lemma {:induction false} SupplementalWithinGap(docs: seq<SleepEpisode>, core: SleepEpisode, e: SupplementalEpisode)
    requires e in BuildSupplementalSleepEpisodes(docs, core)
    ensures exists d :: d in docs && d.id != core.id && d.totalSleepDuration.Some? && d.totalSleepDuration.value != 0
                        && e == SupplementalEpisode(d.bedtimeStart, d.bedtimeEnd, d.totalSleepDuration.value)
    ensures e.end <= core.bedtimeStart
    ensures PreviousCoreSleepEnd(core, docs).Some? ==> e.start >= PreviousCoreSleepEnd(core, docs).value
  {
    var prev := PreviousCoreSleepEnd(core, docs);
    var collected := Collect(core, prev, docs);
    assert e in multiset(BuildSupplementalSleepEpisodes(docs, core));
    assert e in collected;
  }

  /** Conversely, every episode passing the checks is reported. */
  lemma {:induction false} SupplementalComplete(docs: seq<SleepEpisode>, core: SleepEpisode, d: SleepEpisode)
    requires d in docs && Admitted(core, PreviousCoreSleepEnd(core, docs), d)
    ensures ToSupplemental(d) in BuildSupplementalSleepEpisodes(docs, core)
  {
    var collected := Collect(core, PreviousCoreSleepEnd(core, docs), docs);
    assert ToSupplemental(d) in collected;
    assert ToSupplemental(d) in multiset(BuildSupplementalSleepEpisodes(docs, core));
  }
}
