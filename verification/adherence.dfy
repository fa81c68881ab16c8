/**
 `EventStreamAdherenceReport`: its field defaults, and the range of study
 days covered by all of its event streams.
 */
module Adherence {
  import opened Common

  /** An `EventStream`, by the day keys of its `byDayEntries` map. */
  datatype EventStream = EventStream(dayKeys: set<Int32>)

  datatype DayRange = DayRange(min: Int32, max: Int32)

  datatype Report = Report(
    activeOnly: bool,
    timestamp: Option<int>,
    clientTimeZone: Option<string>,
    adherencePercent: Int32,
    streams: seq<EventStream>)

  /** `new EventStreamAdherenceReport()`. */
  function NewReport(): (r: Report)
    ensures r.adherencePercent == 100 && r.streams == []
    ensures !r.activeOnly && r.timestamp.None? && r.clientTimeZone.None?
  {
    Report(false, None, None, 100, [])
  }

  /** The day keys of the first `n` streams. */
  function KeysOf(streams: seq<EventStream>, n: nat): set<Int32>
    requires n <= |streams|
  {
    if n == 0 then {} else KeysOf(streams, n - 1) + streams[n - 1].dayKeys
  }

  lemma {:induction false} KeysOfMember(streams: seq<EventStream>, n: nat, i: nat, k: Int32)
    requires i < n <= |streams| && k in streams[i].dayKeys
    ensures k in KeysOf(streams, n)
  {
    if i < n - 1 {
      KeysOfMember(streams, n - 1, i, k);
    }
  }

  /** Every key of the first `n` streams is a key of one of them. */
  lemma {:induction false} KeysOfSource(streams: seq<EventStream>, n: nat, k: Int32)
    requires n <= |streams| && k in KeysOf(streams, n)
    ensures exists i :: 0 <= i < n && k in streams[i].dayKeys
  {
    if k !in streams[n - 1].dayKeys {
      KeysOfSource(streams, n - 1, k);
    }
  }

  /** `getDayRangeOfAllStreams`: null without streams; otherwise the least and
      greatest day key, starting from (MAX_VALUE, MIN_VALUE). */
  method DayRangeOfAllStreams(report: Report) returns (r: Option<DayRange>)
    ensures r.None? <==> report.streams == []
    ensures r.Some? ==> forall i, k :: 0 <= i < |report.streams| && k in report.streams[i].dayKeys ==>
                          r.value.min <= k <= r.value.max
    ensures r.Some? && (exists i :: 0 <= i < |report.streams| && report.streams[i].dayKeys != {}) ==>
              && (exists i :: 0 <= i < |report.streams| && r.value.min in report.streams[i].dayKeys)
              && (exists i :: 0 <= i < |report.streams| && r.value.max in report.streams[i].dayKeys)
    ensures r.Some? && (forall i :: 0 <= i < |report.streams| ==> report.streams[i].dayKeys == {}) ==>
              r.value == DayRange(MAX_INT, MIN_INT)
  {
    var streams := report.streams;
    if |streams| == 0 {
      return None;
    }
    var min: Int32 := MAX_INT;
    var max: Int32 := MIN_INT;
    for n := 0 to |streams|
      invariant forall k :: k in KeysOf(streams, n) ==> min <= k <= max
      invariant KeysOf(streams, n) == {} ==> min == MAX_INT && max == MIN_INT
      invariant KeysOf(streams, n) != {} ==> min in KeysOf(streams, n) && max in KeysOf(streams, n)
    {
      var remaining := streams[n].dayKeys;
      ghost var seen: set<Int32> := {};
      while remaining != {}
        invariant seen + remaining == streams[n].dayKeys
        invariant forall k :: k in KeysOf(streams, n) + seen ==> min <= k <= max
        invariant KeysOf(streams, n) + seen == {} ==> min == MAX_INT && max == MIN_INT
        invariant KeysOf(streams, n) + seen != {} ==> min in KeysOf(streams, n) + seen && max in KeysOf(streams, n) + seen
        decreases remaining
      {
        var i :| i in remaining;
        if i < min {
          min := i;
        }
        if i > max {
          max := i;
        }
        remaining := remaining - {i};
        seen := seen + {i};
      }
    }
    forall i: int, k: Int32 | 0 <= i < |streams| && k in streams[i].dayKeys
      ensures min <= k <= max
    {
      KeysOfMember(streams, |streams|, i, k);
    }
    if KeysOf(streams, |streams|) != {} {
      KeysOfSource(streams, |streams|, min);
      KeysOfSource(streams, |streams|, max);
    }
    return Some(DayRange(min, max));
  }

  /** A fresh report has no streams, so no day range. */
  method DefaultReportHasNoRange() returns (r: Option<DayRange>)
    ensures r.None?
  {
    r := DayRangeOfAllStreams(NewReport());
  }
}
