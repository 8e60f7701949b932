/**
 What the written name of a metric stands for (`src/query/prometheus.rs:242-300`): the stored
 metric, and whether it is read from the table of sums. Said of the text of the name alone,
 beside the functions that compute it.
 */
module PromQLNames {
  import opened BasicTypes
  import opened Text
  import opened Labels
  import opened PromQL

  predicate EndsIn(s: string, suffix: string) {
    |suffix| <= |s| && s[|s| - |suffix|..] == suffix
  }

  function WithoutEnd(s: string, suffix: string): string {
    if EndsIn(s, suffix) then s[..|s| - |suffix|] else s
  }

  /** At most one unit can stand at the end. */
  function WithoutUnit(s: string): string {
    if EndsIn(s, "_seconds") then WithoutEnd(s, "_seconds")
    else if EndsIn(s, "_milliseconds") then WithoutEnd(s, "_milliseconds")
    else if EndsIn(s, "_bytes") then WithoutEnd(s, "_bytes")
    else if EndsIn(s, "_ratio") then WithoutEnd(s, "_ratio")
    else if EndsIn(s, "_count") then WithoutEnd(s, "_count")
    else WithoutEnd(s, "_total")
  }

  /** The stored name: three renamed metrics, the families with underscores or dots, and any other as written. */
  function NameMeant(written: string): string {
    if written == "process_runtime_cpython_cpu_time_seconds_total" then "process.runtime.cpython.cpu_time"
    else if written == "otelcol_process_uptime_seconds_total" then "otelcol_process_uptime"
    else if written == "demo_recommendation_requests_total" then "app_recommendations_counter"
    else if "otelcol_exporter_" <= written || "otelcol_process_" <= written then WithoutEnd(written, "_total")
    else if "traces_span_metrics_" <= written || "system_" <= written || "process_runtime_" <= written then
      var base := WithoutUnit(WithoutEnd(written, "_total"));
      seq(|base|, i requires 0 <= i < |base| => if base[i] == '_' then '.' else base[i])
    else written
  }

  /** Rates, names written with `_total`, and stored names that end in `.sum` are sums; all else are gauges. */
  predicate SumMeant(written: string, agg: Aggregation) {
    agg == Rate || EndsIn(written, "_total") || EndsIn(NameMeant(written), ".sum")
  }

  lemma SuffixMeant(s: string, suffix: string)
    ensures WithoutSuffix(s, suffix) == WithoutEnd(s, suffix)
    ensures StripSuffix(s, suffix).Some? <==> EndsIn(s, suffix)
  {
  }

  lemma UnitMeant(s: string)
    ensures StripFirstSuffix(s, UNIT_SUFFIXES) == WithoutUnit(s)
  {
    hide StripFirstSuffix, WithoutEnd, EndsIn;
    UnitStep(s, 0);
    UnitStep(s, 1);
    UnitStep(s, 2);
    UnitStep(s, 3);
    UnitStep(s, 4);
    UnitStep(s, 5);
    assert UNIT_SUFFIXES[0..] == UNIT_SUFFIXES && UNIT_SUFFIXES[6..] == [];
    FirstSuffix(s, "_total", []);
    NotAtEnd(s, "_total");
  }

  lemma UnitStep(s: string, i: nat)
    requires i < 6
    ensures |UNIT_SUFFIXES| == 6
    ensures StripFirstSuffix(s, UNIT_SUFFIXES[i..]) ==
      if EndsIn(s, UNIT_SUFFIXES[i]) then WithoutEnd(s, UNIT_SUFFIXES[i])
      else StripFirstSuffix(s, UNIT_SUFFIXES[i + 1..])
  {
    FirstSuffix(s, UNIT_SUFFIXES[i], UNIT_SUFFIXES[i + 1..]);
    assert UNIT_SUFFIXES[i..] == [UNIT_SUFFIXES[i]] + UNIT_SUFFIXES[i + 1..];
  }

  lemma NotAtEnd(s: string, suffix: string)
    ensures !EndsIn(s, suffix) ==> WithoutEnd(s, suffix) == s
  {
  }

  lemma FirstSuffix(s: string, suffix: string, later: seq<string>)
    ensures StripFirstSuffix(s, [suffix] + later) ==
      if EndsIn(s, suffix) then WithoutEnd(s, suffix) else StripFirstSuffix(s, later)
    ensures StripFirstSuffix(s, []) == s
  {
    assert ([suffix] + later)[1..] == later;
  }

  /** The overrides are the three renamed metrics. */
  lemma OverridesMeant(raw: string)
    ensures FirstMatch(METRIC_NAME_OVERRIDES, raw) ==
      if raw == "process_runtime_cpython_cpu_time_seconds_total" then Some("process.runtime.cpython.cpu_time")
      else if raw == "otelcol_process_uptime_seconds_total" then Some("otelcol_process_uptime")
      else if raw == "demo_recommendation_requests_total" then Some("app_recommendations_counter")
      else None
  {
    var first := ("process_runtime_cpython_cpu_time_seconds_total", "process.runtime.cpython.cpu_time");
    var second := ("otelcol_process_uptime_seconds_total", "otelcol_process_uptime");
    var third := ("demo_recommendation_requests_total", "app_recommendations_counter");
    assert METRIC_NAME_OVERRIDES == [first, second, third];
    assert [first, second, third][1..] == [second, third];
    assert [second, third][1..] == [third] && [third][1..] == [];
  }

  /** The stored name of every metric is the one meant. */
  lemma NameIsMeant(raw: string)
    ensures ResolveMetricName(raw) == NameMeant(raw)
  {
    OverridesMeant(raw);
    SuffixMeant(raw, "_total");
    UnitMeant(WithoutEnd(raw, "_total"));
    hide FirstMatch, WithoutSuffix, WithoutEnd, StripFirstSuffix, WithoutUnit;
  }

  /** The table every metric is read from is the one meant. */
  lemma SignalIsMeant(raw: string, agg: Aggregation)
    ensures IsSumSignal(raw, agg) <==> SumMeant(raw, agg)
  {
    NameIsMeant(raw);
    SuffixMeant(raw, "_total");
    SuffixMeant(NameMeant(raw), ".sum");
    hide ResolveMetricName, NameMeant, EndsIn;
  }
}
