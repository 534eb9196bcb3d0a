/**
 * The performance monitor: named timers started and stopped around an
 * operation, the request-level snapshot taken at `init` and closed in the
 * footer, and the capped history of request metrics kept for the dashboard.
 *
 * The clock is an integer count of milliseconds and memory a count of bytes,
 * both passed in by the caller; the `apply_filters` thresholds are
 * parameters whose defaults are the constants below. The debug and info
 * lines the monitor hands to the logger are not modelled; the two warnings
 * `end_timer` raises are collected in `warnings`, and the performance rows
 * it may insert in `metricRows`.
 */
module PerformanceMonitor {
  import opened Php
  import Logger

  /** `wcfd_slow_operation_threshold`, in milliseconds. */
  const DefaultSlowThreshold := 1000
  /** `wcfd_high_memory_threshold`: 10 MB, in bytes. */
  const DefaultMemoryThreshold := 10 * 1048576
  /** Number of request entries kept in `wcfd_recent_metrics`. */
  const HistoryCap := 100
  /** Milliseconds per second: the history's timestamps are `time()`, in whole seconds. */
  const MsPerSecond := 1000
  /** The timer the request monitoring starts and stops. */
  const FullRequest := "full_request"

  datatype PerfTimer = PerfTimer(startTime: int, startMemory: int, context: Logger.Context)

  /** `memory_get_usage()`, `memory_get_peak_usage()` and the time of a snapshot. */
  datatype MemorySnapshot = MemorySnapshot(usage: int, peak: int, timestamp: int)

  /** What `end_timer` measures. */
  datatype TimerMetrics = TimerMetrics(durationMs: int, memoryUsed: int)

  datatype Warning = SlowOperation(name: string) | HighMemory(name: string)

  /** A row of the performance_metrics table. */
  datatype MetricRow = MetricRow(operation: string, durationMs: int, memoryBytes: int)

  /** One entry of the request history. */
  datatype RequestMetrics = RequestMetrics(
    queries: int, memoryUsed: int, peakMemory: int, page: string,
    timestamp: int, url: string, userAgent: string)

  /** `array_slice($s, -n)`: the last `n` elements, or all of them when there are fewer. */
  function LastN<T>(s: seq<T>, n: nat): (r: seq<T>)
    ensures |r| == if |s| <= n then |s| else n
    ensures r == s[|s| - |r|..]
  {
    if |s| <= n then s else s[|s| - n..]
  }

  /** The history after one more request is recorded. */
  function Record(history: seq<RequestMetrics>, entry: RequestMetrics): (r: seq<RequestMetrics>)
    ensures |r| <= HistoryCap
    ensures |r| > 0 && r[|r| - 1] == entry
  {
    LastN(history + [entry], HistoryCap)
  }

  /** A history within the cap grows by the entry, or drops its oldest entry when full. */
  lemma RecordKeepsNewest(history: seq<RequestMetrics>, entry: RequestMetrics)
    requires |history| <= HistoryCap
    ensures |history| < HistoryCap ==> Record(history, entry) == history + [entry]
    ensures |history| == HistoryCap ==> Record(history, entry) == history[1..] + [entry]
  {
    if |history| == HistoryCap {
      assert (history + [entry])[1..] == history[1..] + [entry];
    }
  }

  /** Trimming before appending keeps the same last `n` elements as trimming once at the end. */
  lemma LastNAppend<T>(s: seq<T>, e: T, n: nat)
    requires n > 0
    ensures LastN(LastN(s, n) + [e], n) == LastN(s + [e], n)
  {
    var t := LastN(s, n);
    var a := LastN(t + [e], n);
    var b := LastN(s + [e], n);
    assert |a| == |b|;
    forall k | 0 <= k < |a|
      ensures a[k] == b[k]
    {
      if k == |a| - 1 {
      } else {
        assert a[k] == t[|t| + 1 - |a| + k];
        assert b[k] == s[|s| + 1 - |b| + k];
      }
    }
  }

  /** The history after recording `entries` one by one into an empty transient. */
  function History(entries: seq<RequestMetrics>): (r: seq<RequestMetrics>)
    ensures |r| <= HistoryCap
  {
    if entries == [] then []
    else Record(History(entries[..|entries| - 1]), entries[|entries| - 1])
  }

  /** However many requests were recorded, the history holds exactly the last hundred, oldest first. */
  lemma {:induction false} HistoryIsNewest(entries: seq<RequestMetrics>)
    ensures History(entries) == LastN(entries, HistoryCap)
  {
    if entries != [] {
      var init := entries[..|entries| - 1];
      var e := entries[|entries| - 1];
      HistoryIsNewest(init);
      LastNAppend(init, e, HistoryCap);
      assert init + [e] == entries;
    }
  }

  /** Duration and memory delta of a timer stopped at `endTime` with `endMemory` in use. */
  function Measure(t: PerfTimer, endTime: int, endMemory: int): (m: TimerMetrics)
    ensures t.startTime + m.durationMs == endTime
    ensures t.startMemory + m.memoryUsed == endMemory
  {
    TimerMetrics(endTime - t.startTime, endMemory - t.startMemory)
  }

  /** The warnings `end_timer` logs: slow first, then high memory, each on a strict excess. */
  function Warnings(name: string, m: TimerMetrics, slowThreshold: int, memoryThreshold: int): (r: seq<Warning>)
    ensures SlowOperation(name) in r <==> m.durationMs > slowThreshold
    ensures HighMemory(name) in r <==> m.memoryUsed > memoryThreshold
    ensures forall w | w in r :: w.name == name
    ensures |r| == 2 ==> r[0].SlowOperation?
  {
    (if m.durationMs > slowThreshold then [SlowOperation(name)] else [])
      + (if m.memoryUsed > memoryThreshold then [HighMemory(name)] else [])
  }

  class Monitor {
    var enabled: bool
    var timers: map<string, PerfTimer>
    /** `memory_snapshots['request_start']`. */
    var requestStart: Option<MemorySnapshot>
    /** `query_counts['request_start']`. */
    var queryStart: Option<int>
    /** The `wcfd_recent_metrics` transient. */
    var recent: seq<RequestMetrics>
    var warnings: seq<Warning>
    var metricRows: seq<MetricRow>

    ghost predicate Valid()
      reads this
    {
      |recent| <= HistoryCap
    }

    /**
     * `WCFD_PERFORMANCE_MONITORING` decides `enabled`; the transient starts as
     * `recent`. The source's constructor does not touch the transient: the cut
     * to the newest 100 only establishes `Valid()`, and changes nothing for a
     * history written by `RecordRequestMetrics`, which never keeps more.
     */
    constructor(enabled: bool, recent: seq<RequestMetrics>)
      ensures this.enabled == enabled && timers == map[]
      ensures requestStart == None && queryStart == None
      ensures this.recent == LastN(recent, HistoryCap) && Valid()
      ensures warnings == [] && metricRows == []
    {
      this.enabled := enabled;
      timers := map[];
      requestStart := None;
      queryStart := None;
      this.recent := LastN(recent, HistoryCap);
      warnings := [];
      metricRows := [];
    }

    method SetMonitoringEnabled(enabled: bool)
      modifies this
      ensures this.enabled == enabled
      ensures timers == old(timers) && recent == old(recent) && warnings == old(warnings)
      ensures requestStart == old(requestStart) && queryStart == old(queryStart)
      ensures metricRows == old(metricRows)
    {
      this.enabled := enabled;
    }

    method IsMonitoringEnabled() returns (r: bool)
      ensures r == enabled
    {
      r := enabled;
    }

    /** `start_timer`: (re)starts the named timer; with monitoring off nothing changes. */
    method StartTimer(name: string, context: Logger.Context, now: int, memory: int)
      modifies this
      ensures timers == if old(enabled) then old(timers)[name := PerfTimer(now, memory, context)] else old(timers)
      ensures enabled == old(enabled) && recent == old(recent) && warnings == old(warnings)
      ensures requestStart == old(requestStart) && queryStart == old(queryStart)
      ensures metricRows == old(metricRows)
    {
      if !enabled {
        return;
      }
      timers := timers[name := PerfTimer(now, memory, context)];
    }

    /**
     * `end_timer`: stops a running timer, records a performance row when
     * `recordMetrics` (the `wcfd_record_performance_metrics` filter) is on,
     * and logs the warnings the thresholds call for. An unknown name and a
     * disabled monitor change nothing; `m` is `None` exactly then.
     */
    method EndTimer(name: string, now: int, memory: int, recordMetrics: bool, slowThreshold: int, memoryThreshold: int)
      returns (m: Option<TimerMetrics>)
      modifies this
      ensures m.None? <==> !old(enabled) || name !in old(timers)
      ensures m.None? ==>
        timers == old(timers) && warnings == old(warnings) && metricRows == old(metricRows)
      ensures m.Some? ==>
        && m.value == Measure(old(timers)[name], now, memory)
        && timers == old(timers) - {name}
        && warnings == old(warnings) + Warnings(name, m.value, slowThreshold, memoryThreshold)
        && metricRows == old(metricRows) + (if recordMetrics then [MetricRow(name, m.value.durationMs, m.value.memoryUsed)] else [])
      ensures enabled == old(enabled) && recent == old(recent)
      ensures requestStart == old(requestStart) && queryStart == old(queryStart)
    {
      if !enabled || name !in timers {
        return None;
      }
      var metrics := Measure(timers[name], now, memory);
      if recordMetrics {
        metricRows := metricRows + [MetricRow(name, metrics.durationMs, metrics.memoryUsed)];
      }
      warnings := warnings + Warnings(name, metrics, slowThreshold, memoryThreshold);
      timers := timers - {name};
      m := Some(metrics);
    }

    /** `start_request_monitoring`: starts the full-request timer and takes the memory and query snapshots. */
    method StartRequestMonitoring(now: int, usage: int, peak: int, numQueries: int)
      modifies this
      ensures !old(enabled) ==>
        timers == old(timers) && requestStart == old(requestStart) && queryStart == old(queryStart)
      ensures old(enabled) ==>
        && timers == old(timers)[FullRequest := PerfTimer(now, usage, [])]
        && requestStart == Some(MemorySnapshot(usage, peak, now))
        && queryStart == Some(numQueries)
      ensures enabled == old(enabled) && recent == old(recent) && warnings == old(warnings)
      ensures metricRows == old(metricRows)
    {
      if !enabled {
        return;
      }
      StartTimer(FullRequest, [], now, usage);
      requestStart := Some(MemorySnapshot(usage, peak, now));
      queryStart := Some(numQueries);
    }

    /** `record_request_metrics`: appends the entry to the history and keeps the last hundred. */
    method RecordRequestMetrics(entry: RequestMetrics)
      requires Valid()
      modifies this
      ensures recent == Record(old(recent), entry) && Valid()
      ensures |old(recent)| < HistoryCap ==> recent == old(recent) + [entry]
      ensures |old(recent)| == HistoryCap ==> recent == old(recent)[1..] + [entry]
      ensures enabled == old(enabled) && timers == old(timers) && warnings == old(warnings)
      ensures requestStart == old(requestStart) && queryStart == old(queryStart)
      ensures metricRows == old(metricRows)
    {
      RecordKeepsNewest(recent, entry);
      recent := LastN(recent + [entry], HistoryCap);
    }

    /**
     * `end_request_monitoring`: without a running full-request timer nothing
     * happens. Otherwise the timer is stopped and one entry recording the
     * queries run and the memory used since the snapshot is added to the
     * history; a missing snapshot counts as zero. The entry's timestamp is
     * `time()`: the whole second the millisecond clock `now` falls in.
     */
    method EndRequestMonitoring(
      now: int, usage: int, peak: int, numQueries: int, page: string, url: string, userAgent: string,
      recordMetrics: bool, slowThreshold: int, memoryThreshold: int)
      returns (entry: Option<RequestMetrics>)
      requires Valid()
      modifies this
      ensures entry.None? <==> !old(enabled) || FullRequest !in old(timers)
      ensures entry.None? ==>
        recent == old(recent) && timers == old(timers) && warnings == old(warnings) && metricRows == old(metricRows)
      ensures entry.Some? ==>
        && timers == old(timers) - {FullRequest}
        && recent == Record(old(recent), entry.value)
        && entry.value.queries == numQueries - OrElse(old(queryStart), 0)
        && entry.value.memoryUsed == usage - OrElse(old(requestStart), MemorySnapshot(0, 0, 0)).usage
        && entry.value.peakMemory >= peak
        && entry.value.peakMemory >= OrElse(old(requestStart), MemorySnapshot(0, 0, 0)).peak
        && (entry.value.peakMemory == peak || entry.value.peakMemory == OrElse(old(requestStart), MemorySnapshot(0, 0, 0)).peak)
        && entry.value.page == page && entry.value.url == url && entry.value.userAgent == userAgent
        && entry.value.timestamp * MsPerSecond <= now < (entry.value.timestamp + 1) * MsPerSecond
      ensures entry.Some? ==>
        var m := Measure(old(timers)[FullRequest], now, usage);
        && warnings == old(warnings) + Warnings(FullRequest, m, slowThreshold, memoryThreshold)
        && metricRows == old(metricRows) + (if recordMetrics then [MetricRow(FullRequest, m.durationMs, m.memoryUsed)] else [])
      ensures Valid() && enabled == old(enabled)
      ensures requestStart == old(requestStart) && queryStart == old(queryStart)
    {
      if !enabled || FullRequest !in timers {
        return None;
      }
      var _ := EndTimer(FullRequest, now, usage, recordMetrics, slowThreshold, memoryThreshold);
      var start := OrElse(requestStart, MemorySnapshot(0, 0, 0));
      var queryCount := numQueries - OrElse(queryStart, 0);
      var peakMemory := if peak >= start.peak then peak else start.peak;
      var e := RequestMetrics(queryCount, usage - start.usage, peakMemory, page, now / MsPerSecond, url, userAgent);
      RecordRequestMetrics(e);
      entry := Some(e);
    }
  }
}
