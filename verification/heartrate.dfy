/**
 * The validating parser of the heart-rate time series: one sample, and a
 * page of samples. ISO-8601 parsing itself (`datetime.fromisoformat`) is a
 * parameter giving an instant in seconds, or None where it raises.
 */
module Heartrate {
  import opened Wrappers
  import opened PyValue
  import Strings

  datatype HeartRateSample = HeartRateSample(bpm: Value, source: string, timestamp: int)

  datatype Page = Page(data: seq<HeartRateSample>, nextToken: Option<Value>, raw: map<string, Value>)

  /** The ValueError (or TypeError, for a value that cannot be indexed or iterated) raised. */
  datatype HeartrateError =
    | MissingField(key: string)
    | BpmNotInt
    | SourceNotStr
    | TimestampNotStr
    | BadTimestamp(text: string)
    | NotAMapping
    | DataNotIterable

  const UtcOffset := "+00:00"

  /**
   * The text handed to `fromisoformat`: when it ends in "Z", every "Z" is
   * replaced by "+00:00" (Python's `replace` is not anchored).
   */
  function NormalizeUtc(value: string): (r: string)
    ensures !Strings.EndsWith(value, "Z") ==> r == value
    ensures Strings.EndsWith(value, "Z") ==> 'Z' !in r && Strings.EndsWith(r, UtcOffset)
  {
    if Strings.EndsWith(value, "Z") then
      var head := value[..|value| - 1];
      assert value == head + "Z";
      Strings.ReplaceAllAppend(head, "Z", 'Z', UtcOffset);
      Strings.ReplaceAll(value, 'Z', UtcOffset)
    else value
  }

  /** A trailing "Z" on an otherwise Z-free timestamp becomes exactly "+00:00". */
  lemma TrailingZIsUtc(head: string)
    requires 'Z' !in head
    ensures NormalizeUtc(head + "Z") == head + UtcOffset
  {
    Strings.ReplaceAllAppend(head, "Z", 'Z', UtcOffset);
  }

  /**
   * `_parse_utc_timestamp`: a timestamp without "Z" is parsed as it is; one
   * whose only "Z" is the last character is parsed with "+00:00" in its place.
   */
  function ParseUtcTimestamp(value: string, fromIso: string -> Option<int>): (r: Option<int>)
    ensures 'Z' !in value ==> r == fromIso(value)
    ensures |value| > 0 && value[|value| - 1] == 'Z' && 'Z' !in value[..|value| - 1] ==>
              r == fromIso(value[..|value| - 1] + UtcOffset)
  {
    if |value| > 0 && value[|value| - 1] == 'Z' && 'Z' !in value[..|value| - 1] then
      assert value == value[..|value| - 1] + "Z";
      TrailingZIsUtc(value[..|value| - 1]);
      fromIso(NormalizeUtc(value))
    else
      fromIso(NormalizeUtc(value))
  }

  /** `isinstance(v, int)`, which a Python bool also satisfies. */
  predicate IsPyInt(v: Value) {
    v.VInt? || v.VBool?
  }

  /** `parse_heartrate_item`: the three keys, then the type checks in order, then the timestamp. */
  function ParseItem(item: Value, fromIso: string -> Option<int>): (r: Result<HeartRateSample, HeartrateError>)
    ensures !item.VObject? ==> r == Failure(NotAMapping)
    ensures item.VObject? && "bpm" !in item.fields ==> r == Failure(MissingField("bpm"))
    ensures item.VObject? && "bpm" in item.fields && "source" !in item.fields ==> r == Failure(MissingField("source"))
    ensures item.VObject? && "bpm" in item.fields && "source" in item.fields && "timestamp" !in item.fields ==>
              r == Failure(MissingField("timestamp"))
    ensures r.Success? <==>
              && item.VObject?
              && "bpm" in item.fields && "source" in item.fields && "timestamp" in item.fields
              && IsPyInt(item.fields["bpm"]) && item.fields["source"].VStr? && item.fields["timestamp"].VStr?
              && ParseUtcTimestamp(item.fields["timestamp"].s, fromIso).Some?
    ensures r.Success? ==> r.value.bpm == item.fields["bpm"] && r.value.source == item.fields["source"].s
                           && Some(r.value.timestamp) == ParseUtcTimestamp(item.fields["timestamp"].s, fromIso)
    ensures item.VObject? && "bpm" in item.fields && "source" in item.fields && "timestamp" in item.fields ==>
              var f := item.fields;
              && (!IsPyInt(f["bpm"]) ==> r == Failure(BpmNotInt))
              && (IsPyInt(f["bpm"]) && !f["source"].VStr? ==> r == Failure(SourceNotStr))
              && (IsPyInt(f["bpm"]) && f["source"].VStr? && !f["timestamp"].VStr? ==> r == Failure(TimestampNotStr))
  {
    if !item.VObject? then Failure(NotAMapping)
    else
      var f := item.fields;
      if "bpm" !in f then Failure(MissingField("bpm"))
      else if "source" !in f then Failure(MissingField("source"))
      else if "timestamp" !in f then Failure(MissingField("timestamp"))
      else if !IsPyInt(f["bpm"]) then Failure(BpmNotInt)
      else if !f["source"].VStr? then Failure(SourceNotStr)
      else if !f["timestamp"].VStr? then Failure(TimestampNotStr)
      else match ParseUtcTimestamp(f["timestamp"].s, fromIso)
        case None => Failure(BadTimestamp(NormalizeUtc(f["timestamp"].s)))
        case Some(t) => Success(HeartRateSample(f["bpm"], f["source"].s, t))
  }

  /** The list comprehension over the items: the first failure propagates. */
  function ParseItems(items: seq<Value>, fromIso: string -> Option<int>): (r: Result<seq<HeartRateSample>, HeartrateError>)
    ensures r.Success? <==> forall i :: 0 <= i < |items| ==> ParseItem(items[i], fromIso).Success?
    ensures r.Success? ==> |r.value| == |items| && forall i :: 0 <= i < |items| ==> r.value[i] == ParseItem(items[i], fromIso).value
    ensures r.Failure? ==> exists k :: 0 <= k < |items| && ParseItem(items[k], fromIso) == Failure(r.error)
                                       && forall i :: 0 <= i < k ==> ParseItem(items[i], fromIso).Success?
  {
    if items == [] then Success([])
    else
      var head :- ParseItem(items[0], fromIso);
      match ParseItems(items[1..], fromIso)
      case Failure(e) =>
        var k :| 0 <= k < |items[1..]| && ParseItem(items[1..][k], fromIso) == Failure(e)
                 && forall i :: 0 <= i < k ==> ParseItem(items[1..][i], fromIso).Success?;
        assert ParseItem(items[k + 1], fromIso) == Failure(e);
        assert forall i :: 0 <= i < k + 1 ==> ParseItem(items[i], fromIso).Success? by {
          forall i | 0 <= i < k + 1
            ensures ParseItem(items[i], fromIso).Success?
          {
            if i > 0 {
              assert items[i] == items[1..][i - 1];
            }
          }
        }
        Failure(e)
      case Success(tail) =>
        assert forall i :: 1 <= i < |items| ==> items[i] == items[1..][i - 1];
        Success([head] + tail)
  }

  /**
   * `parse_heartrate_page`: a missing or falsy "data" is an empty list, a
   * list is parsed item by item, and any other truthy value cannot be.
   */
  function ParsePage(payload: map<string, Value>, fromIso: string -> Option<int>): (r: Result<Page, HeartrateError>)
    ensures !OptTruthy(Get(payload, "data")) ==> r == Success(Page([], Get(payload, "next_token"), payload))
    ensures OptTruthy(Get(payload, "data")) && payload["data"].VArray? ==>
              match ParseItems(payload["data"].items, fromIso)
              case Success(samples) => r == Success(Page(samples, Get(payload, "next_token"), payload))
              case Failure(e) => r == Failure(e)
    ensures OptTruthy(Get(payload, "data")) && !payload["data"].VArray? ==> r.Failure?
  {
    var data := Get(payload, "data");
    if !OptTruthy(data) then Success(Page([], Get(payload, "next_token"), payload))
    else
      var samples :- match data.value
                     case VArray(items) => ParseItems(items, fromIso)
                     // Iterating a dict or a string yields strings, which cannot be indexed by key.
                     case VObject(_) => Failure(NotAMapping)
                     case VStr(_) => Failure(NotAMapping)
                     case _ => Failure(DataNotIterable);
      Success(Page(samples, Get(payload, "next_token"), payload))
  }

  /** A successful page keeps every item, in order, with its bpm and source unchanged. */
  lemma PagePreservesItems(payload: map<string, Value>, fromIso: string -> Option<int>, i: int)
    requires ParsePage(payload, fromIso).Success? && OptTruthy(Get(payload, "data"))
    requires 0 <= i < |ParsePage(payload, fromIso).value.data|
    ensures payload["data"].VArray? && |ParsePage(payload, fromIso).value.data| == |payload["data"].items|
    ensures var item := payload["data"].items[i];
            item.VObject? && "bpm" in item.fields && "source" in item.fields && item.fields["source"].VStr?
            && ParsePage(payload, fromIso).value.data[i].bpm == item.fields["bpm"]
            && ParsePage(payload, fromIso).value.data[i].source == item.fields["source"].s
  {
    var item := payload["data"].items[i];
    assert ParseItem(item, fromIso).Success?;
  }
}
