/**
 * The integer presentation helpers both CLI services define identically
 * (`_seconds_to_hm`, `_seconds_to_minutes`), and the stage names they print.
 */
module Presentation {
  import opened Wrappers
  import opened SleepModel
  import Strings

  /** Whole hours and the leftover whole minutes of a non-negative number of seconds. */
  function HoursMinutes(seconds: nat): (hm: (nat, nat))
    ensures hm.1 < 60
    ensures 3600 * hm.0 + 60 * hm.1 <= seconds < 3600 * hm.0 + 60 * hm.1 + 60
  {
    (seconds / 3600, (seconds % 3600) / 60)
  }

  /** No other pair of hours and minutes below 60 brackets the same seconds. */
  lemma HoursMinutesUnique(seconds: nat, h: nat, m: nat)
    requires m < 60 && 3600 * h + 60 * m <= seconds < 3600 * h + 60 * m + 60
    ensures HoursMinutes(seconds) == (h, m)
  {
    var hm := HoursMinutes(seconds);
    assert hm.0 < h ==> 3600 * hm.0 + 60 * hm.1 + 60 <= 3600 * h;
    assert hm.0 > h ==> 3600 * h + 60 * m + 60 <= 3600 * hm.0;
  }

  const ZeroHm := "0h 00m"

  /**
   * `_seconds_to_hm`: "0h 00m" for a missing, zero or negative value,
   * otherwise "<h>h <mm>m" with the minutes padded to two digits.
   */
  function SecondsToHm(seconds: Option<int>): (r: string)
    ensures seconds.None? || seconds.value <= 0 ==> r == ZeroHm
    ensures seconds.Some? && seconds.value > 0 ==> ParseHm(r) == Some(HoursMinutes(seconds.value))
  {
    if seconds.None? || seconds.value <= 0 then ZeroHm
    else
      var hm := HoursMinutes(seconds.value);
      HmTextReadsBack(hm.0, hm.1);
      Strings.IntToDecimal(hm.0) + "h " + Strings.PadTwo(hm.1) + "m"
  }

  /** Reads "<h>h <mm>m" back into hours and minutes. */
  function ParseHm(r: string): Option<(int, nat)> {
    if |r| >= 6 && r[|r| - 1] == 'm' && r[|r| - 5..|r| - 3] == "h " && Strings.AllDigits(r[|r| - 3..|r| - 1]) then
      match Strings.ParseInt(r[..|r| - 5])
      case Some(h) => Some((h, Strings.DigitsValue(r[|r| - 3..|r| - 1])))
      case None => None
    else None
  }

  /** The hours-and-minutes text reads back as the hours and minutes it was made from. */
  lemma HmTextReadsBack(h: nat, m: nat)
    requires m < 60
    ensures ParseHm(Strings.IntToDecimal(h) + "h " + Strings.PadTwo(m) + "m") == Some((h, m))
  {
    Strings.ParseIntOfDecimal(h);
    HmFields(Strings.IntToDecimal(h), Strings.PadTwo(m));
  }

  /** `ParseHm` splits "<d>h <pp>m" into the integer `d` reads as and the two digits `pp`. */
  lemma HmFields(d: string, p: string)
    requires |p| == 2 && Strings.AllDigits(p)
    ensures var r := d + "h " + p + "m";
            ParseHm(r) == match Strings.ParseInt(d)
                          case Some(h) => Some((h, Strings.DigitsValue(p)))
                          case None => None
  {
    var r := d + "h " + p + "m";
    assert |r| == |d| + 5;
    assert r[|r| - 1] == 'm';
    assert r[..|r| - 5] == d;
    assert r[|r| - 5..|r| - 3] == "h ";
    assert r[|r| - 3..|r| - 1] == p;
  }

  /** `_seconds_to_minutes`: "n/a" for a missing value, otherwise the floor of seconds / 60. */
  function SecondsToMinutes(seconds: Option<int>): (r: string)
    ensures seconds.None? ==> r == "n/a"
    ensures ShowsMinutes(r, seconds)
  {
    if seconds.None? then "n/a"
    else
      var q := seconds.value / 60;
      Strings.ParseIntOfDecimal(q);
      Strings.IntToDecimal(q)
  }

  /** What a duration text shows: "0h 00m" for nothing, otherwise text that reads back as the hours and minutes. */
  predicate ShowsDuration(text: string, seconds: int) {
    && (seconds <= 0 ==> text == ZeroHm)
    && (seconds > 0 ==> ParseHm(text) == Some(HoursMinutes(seconds)))
  }

  /** What a minutes text shows: "n/a" for a missing value, otherwise the whole minutes. */
  predicate ShowsMinutes(text: string, seconds: Option<int>) {
    && (seconds.None? ==> text == "n/a")
    && (seconds.Some? ==> var q := Strings.ParseInt(text);
                          q.Some? && 60 * q.value <= seconds.value < 60 * q.value + 60)
  }

  /**
   * Both renderers print the average heart rate with the `:.0f` format spec,
   * which `None` does not support: for a snapshot without one, Python raises
   * TypeError while building the day's text, before any of it is printed.
   */
  predicate HeartRatePrints(s: SleepDaySnapshot) {
    s.avgHr.Some?
  }

  /** How a timeline stage is named on screen: "REM", or the stage value capitalised. */
  function StageLabel(s: SleepStage): (r: string)
    ensures r == "REM" <==> s == Rem
    ensures s != Rem ==> |r| == |StageValue(s)| > 0 && r[0] == Strings.UpperChar(StageValue(s)[0])
                         && r[1..] == StageValue(s)[1..]
  {
    match s
    case Awake => "Awake"
    case Light => "Light"
    case Deep => "Deep"
    case Rem => "REM"
  }

  /** Lower-casing a label gives back the stage's value, so labels name stages one-to-one. */
  lemma StageLabelLowersToValue(s: SleepStage)
    ensures Strings.Lower(StageLabel(s)) == StageValue(s)
  {
    var l := StageLabel(s);
    assert Strings.Lower(l) == seq(|l|, i requires 0 <= i < |l| => Strings.LowerChar(l[i]));
  }

  function Min(a: int, b: int): (r: int)
    ensures r <= a && r <= b && (r == a || r == b)
  {
    if a <= b then a else b
  }
}
