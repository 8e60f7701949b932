/**
 The questions discovery answers from its cache (`src/metadata.rs`): the key each is cached
 under, and the SQL statements its build runs. The key decides the statements, so an answer
 served from the cache is one to the very statements that were asked for.
 */
module DiscoveryQueries {
  import opened BasicTypes
  import opened Text
  import L = Labels
  import opened SqlText
  import opened SqlPrefix
  import opened CacheCoherence

  datatype Api = Prometheus | Loki | Tempo
  datatype Discovery = LabelValue | Series | MetricMetadata | TagValue

  /**
   A point in time as its formatted parts: the date, the time of day to the millisecond,
   and the nanoseconds that neither rendering shows.
   */
  datatype Time = Time(date: string, clock: string, belowMillis: nat) {
    predicate WellFormed() { 'T' !in date && ' ' !in date }
    function CacheText(): string { date + "T" + clock + "Z" }
    function SqlText(): string { date + " " + clock }
  }

  type Moment = t: Time | t.WellFormed() witness Time("", "", 0)

  datatype Scope = Static | Window(start: string, end: string)

  datatype CacheKey = CacheKey(api: Api, kind: Discovery, name: string, scope: Scope)

  function WindowKey(api: Api, kind: Discovery, name: string, from: Time, to: Time): CacheKey {
    CacheKey(api, kind, name, Window(from.CacheText(), to.CacheText()))
  }

  /** The overlap test every discovery query carries. */
  function MetadataTimePredicate(from: Time, to: Time): string {
    "first_seen < TIMESTAMP " + Quote(to.SqlText()) + " AND last_seen >= TIMESTAMP " + Quote(from.SqlText())
  }

  function RawTimePredicate(from: Time, to: Time): string {
    TimePredicate("time_unix_nano", from.SqlText(), to.SqlText())
  }

  lemma FirstAt(a: string, c: char, b: string)
    requires c !in a
    ensures var s := a + [c] + b;
      s[|a|] == c && (forall i | 0 <= i < |a| :: s[i] != c) && s[..|a|] == a && s[|a| + 1..] == b
  {
  }

  lemma SplitAtFirst(a: string, b: string, x: string, y: string, c: char)
    requires c !in a && c !in x && a + [c] + b == x + [c] + y
    ensures a == x && b == y
  {
    FirstAt(a, c, b);
    FirstAt(x, c, y);
  }

  /** The key's text and the query's text distinguish exactly the same times. */
  lemma SameKeyTextSameSqlText(a: Time, b: Time)
    requires a.WellFormed() && b.WellFormed()
    ensures a.CacheText() == b.CacheText() <==> a.SqlText() == b.SqlText()
  {
    if a.CacheText() == b.CacheText() {
      assert a.CacheText() == a.date + ['T'] + (a.clock + "Z") && b.CacheText() == b.date + ['T'] + (b.clock + "Z");
      SplitAtFirst(a.date, a.clock + "Z", b.date, b.clock + "Z", 'T');
      assert a.clock == (a.clock + "Z")[..|a.clock|] && b.clock == (b.clock + "Z")[..|b.clock|];
    }
    if a.SqlText() == b.SqlText() {
      SplitAtFirst(a.date, a.clock, b.date, b.clock, ' ');
    }
  }

  /**
   Two windows with the same key put the same text into both kinds of discovery query, so a
   hit is the answer to the very query the request would have run.
   */
  lemma EqualKeysEqualQueries(api1: Api, kind1: Discovery, name1: string, from1: Time, to1: Time,
                              api2: Api, kind2: Discovery, name2: string, from2: Time, to2: Time)
    requires from1.WellFormed() && to1.WellFormed() && from2.WellFormed() && to2.WellFormed()
    ensures WindowKey(api1, kind1, name1, from1, to1) == WindowKey(api2, kind2, name2, from2, to2) <==>
            && api1 == api2 && kind1 == kind2 && name1 == name2
            && from1.SqlText() == from2.SqlText() && to1.SqlText() == to2.SqlText()
    ensures WindowKey(api1, kind1, name1, from1, to1) == WindowKey(api2, kind2, name2, from2, to2) ==>
            && MetadataTimePredicate(from1, to1) == MetadataTimePredicate(from2, to2)
            && RawTimePredicate(from1, to1) == RawTimePredicate(from2, to2)
  {
    SameKeyTextSameSqlText(from1, from2);
    SameKeyTextSameSqlText(to1, to2);
  }

  // ----- The statements of a build -----

  /** A question, with the names already resolved to canonical ones. */
  datatype Question =
    | PrometheusLabelValues(name: string, from: Moment, to: Moment)
    | PrometheusSeries(from: Moment, to: Moment)
    | PrometheusMetricMetadata
    | LokiLabelValues(name: string, from: Moment, to: Moment)
    | LokiSeries(from: Moment, to: Moment)
    | TempoTagValues(name: string, from: Moment, to: Moment)

  function KeyOf(q: Question): CacheKey {
    match q
    case PrometheusLabelValues(name, from, to) => WindowKey(Prometheus, LabelValue, name, from, to)
    case PrometheusSeries(from, to) => WindowKey(Prometheus, Series, "", from, to)
    case PrometheusMetricMetadata => CacheKey(Prometheus, MetricMetadata, "", Static)
    case LokiLabelValues(name, from, to) => WindowKey(Loki, LabelValue, name, from, to)
    case LokiSeries(from, to) => WindowKey(Loki, Series, "", from, to)
    case TempoTagValues(name, from, to) => WindowKey(Tempo, TagValue, name, from, to)
  }

  const LOGS := "otlp_logs"
  const SPANS := "otlp_traces"
  const GAUGES := "otlp_metrics_gauge"
  const SUMS := "otlp_metrics_sum"

  function SignalInList(signals: seq<string>): string {
    Join(seq(|signals|, i requires 0 <= i < |signals| => Quote(signals[i])), ", ")
  }

  /** A statement over the summary of all signals. */
  function SummarySql(prefix: string, columns: string, where: string, groups: string): string {
    "SELECT " + columns + " FROM " + prefix + "metadata_summary WHERE " + where + " GROUP BY " + groups
  }

  function LabelValuesWhere(signals: seq<string>, kind: string, name: string, from: Time, to: Time): string {
    "kind = " + Quote(kind) + " AND signal IN (" + SignalInList(signals) + ") AND name = " + Quote(name)
    + " AND value IS NOT NULL AND " + MetadataTimePredicate(from, to)
  }

  function LabelValuesSql(prefix: string, signals: seq<string>, kind: string, name: string, from: Time,
                          to: Time): string {
    SummarySql(prefix, "value, sum(row_count) AS rows", LabelValuesWhere(signals, kind, name, from, to),
               "1 ORDER BY value LIMIT 1000")
  }

  function SeriesWhere(signals: seq<string>, from: Time, to: Time): string {
    "kind = 'series' AND signal IN (" + SignalInList(signals) + ") AND " + MetadataTimePredicate(from, to)
  }

  function SeriesSql(prefix: string, columns: string, signals: seq<string>, from: Time, to: Time): string {
    SummarySql(prefix, columns + ", sum(row_count) AS rows", SeriesWhere(signals, from, to),
               "1,2,3 ORDER BY rows DESC, " + columns + " LIMIT 1000")
  }

  function MetricMetadataWhere(): string {
    "kind = 'metric_metadata' AND signal IN (" + SignalInList([GAUGES, SUMS]) + ")"
  }

  function MetricMetadataSql(prefix: string): string {
    SummarySql(prefix,
               "name, metric_type, max(coalesce(metric_unit, '')) AS unit, "
               + "max(coalesce(metric_description, '')) AS help, max(last_seen) AS last_seen",
               MetricMetadataWhere(), "1,2 ORDER BY last_seen DESC, name, metric_type LIMIT 1000")
  }

  function RawValuesWhere(from: Time, to: Time): string {
    "value IS NOT NULL AND value <> '' AND " + RawTimePredicate(from, to)
  }

  function RawValuesSql(expr: string, from: Time, to: Time): string {
    "WITH raw_values AS ( SELECT cast(" + expr + " AS VARCHAR) AS value, time_unix_nano FROM {prefix}" + GAUGES
    + " UNION ALL SELECT cast(" + expr + " AS VARCHAR) AS value, time_unix_nano FROM {prefix}" + SUMS
    + " ) SELECT DISTINCT value FROM raw_values WHERE " + RawValuesWhere(from, to) + " ORDER BY value LIMIT 1000"
  }

  function RawSeriesSql(environment: string, from: Time, to: Time): string {
    "WITH raw_series AS ( SELECT name, service_name, " + environment
    + " AS deployment_environment, time_unix_nano FROM {prefix}" + GAUGES
    + " UNION ALL SELECT name, service_name, " + environment
    + " AS deployment_environment, time_unix_nano FROM {prefix}" + SUMS
    + " ) SELECT name, service_name, deployment_environment, count(*) AS rows FROM raw_series WHERE "
    + RawTimePredicate(from, to)
    + " GROUP BY 1,2,3 ORDER BY rows DESC, name, service_name, deployment_environment LIMIT 1000"
  }

  /** The column expression of a label in the raw metric tables, if it has one. */
  function RawLabelExpr(reg: L.Registry, name: string): Option<string> {
    if name == "__name__" then Some("name") else L.LabelExpr(reg, L.Metrics, name)
  }

  function RawEnvironment(reg: L.Registry): string {
    match L.LabelExpr(reg, L.Metrics, "deployment_environment") case Some(expr) => expr case None => "NULL"
  }

  const PROMETHEUS_SERIES := "name, service_name, deployment_environment"
  const LOKI_SERIES := "service_name, deployment_environment, severity_text"

  /** The statements a build runs: the summary, and over the raw tables if that had no rows. */
  function Statements(reg: L.Registry, prefix: string, q: Question): seq<string> {
    match q
    case PrometheusLabelValues(name, from, to) =>
      [LabelValuesSql(prefix, [GAUGES, SUMS], "label_value", name, from, to)] +
      (match RawLabelExpr(reg, name)
       case Some(expr) => [Replaced(RawValuesSql(expr, from, to), PREFIX, prefix)]
       case None => [])
    case PrometheusSeries(from, to) =>
      [SeriesSql(prefix, PROMETHEUS_SERIES, [GAUGES, SUMS], from, to),
       Replaced(RawSeriesSql(RawEnvironment(reg), from, to), PREFIX, prefix)]
    case PrometheusMetricMetadata => [MetricMetadataSql(prefix)]
    case LokiLabelValues(name, from, to) => [LabelValuesSql(prefix, [LOGS], "label_value", name, from, to)]
    case LokiSeries(from, to) =>
      [SeriesSql(prefix, LOKI_SERIES, [LOGS], from, to)]
    case TempoTagValues(name, from, to) => [LabelValuesSql(prefix, [SPANS], "tag_value", name, from, to)]
  }

  lemma SameWindow(from1: Moment, to1: Moment, from2: Moment, to2: Moment)
    requires from1.CacheText() == from2.CacheText() && to1.CacheText() == to2.CacheText()
    ensures MetadataTimePredicate(from1, to1) == MetadataTimePredicate(from2, to2)
    ensures RawTimePredicate(from1, to1) == RawTimePredicate(from2, to2)
  {
    SameKeyTextSameSqlText(from1, from2);
    SameKeyTextSameSqlText(to1, to2);
  }

  lemma SameSummaries(prefix: string, columns: string, signals: seq<string>, kind: string, name: string,
                      from1: Moment, to1: Moment, from2: Moment, to2: Moment)
    requires MetadataTimePredicate(from1, to1) == MetadataTimePredicate(from2, to2)
    ensures LabelValuesSql(prefix, signals, kind, name, from1, to1) ==
      LabelValuesSql(prefix, signals, kind, name, from2, to2)
    ensures SeriesSql(prefix, columns, signals, from1, to1) == SeriesSql(prefix, columns, signals, from2, to2)
  {
    hide MetadataTimePredicate, SignalInList, Quote;
  }

  lemma SameRaw(expr: string, from1: Moment, to1: Moment, from2: Moment, to2: Moment)
    requires RawTimePredicate(from1, to1) == RawTimePredicate(from2, to2)
    ensures RawValuesSql(expr, from1, to1) == RawValuesSql(expr, from2, to2)
    ensures RawSeriesSql(expr, from1, to1) == RawSeriesSql(expr, from2, to2)
  {
    SameRawValues(expr, from1, to1, from2, to2);
    hide RawTimePredicate, RawValuesSql;
  }

  lemma SameRawValues(expr: string, from1: Moment, to1: Moment, from2: Moment, to2: Moment)
    requires RawTimePredicate(from1, to1) == RawTimePredicate(from2, to2)
    ensures RawValuesSql(expr, from1, to1) == RawValuesSql(expr, from2, to2)
  {
    hide RawTimePredicate;
  }

  /** The key decides every statement of the build, whole. */
  lemma KeyDecidesStatements(reg: L.Registry, prefix: string, q1: Question, q2: Question)
    requires KeyOf(q1) == KeyOf(q2)
    ensures Statements(reg, prefix, q1) == Statements(reg, prefix, q2)
  {
    hide LabelValuesSql, SeriesSql, RawValuesSql, RawSeriesSql, Replaced, RawLabelExpr, MetricMetadataSql;
    hide MetadataTimePredicate, RawTimePredicate, RawEnvironment;
    if !q1.PrometheusMetricMetadata? {
      SameWindow(q1.from, q1.to, q2.from, q2.to);
    }
    match q1
    case PrometheusLabelValues(name, from, to) =>
      SameSummaries(prefix, "", [GAUGES, SUMS], "label_value", name, from, to, q2.from, q2.to);
      var expr := RawLabelExpr(reg, name);
      if expr.Some? { SameRaw(expr.value, from, to, q2.from, q2.to); }
    case PrometheusSeries(from, to) =>
      SameSummaries(prefix, PROMETHEUS_SERIES, [GAUGES, SUMS], "", "", from, to, q2.from, q2.to);
      SameRaw(RawEnvironment(reg), from, to, q2.from, q2.to);
    case PrometheusMetricMetadata =>
    case LokiLabelValues(name, from, to) =>
      SameSummaries(prefix, "", [LOGS], "label_value", name, from, to, q2.from, q2.to);
    case LokiSeries(from, to) =>
      SameSummaries(prefix, LOKI_SERIES, [LOGS], "", "", from, to, q2.from, q2.to);
    case TempoTagValues(name, from, to) =>
      SameSummaries(prefix, "", [SPANS], "tag_value", name, from, to, q2.from, q2.to);
  }

  /**
   In every interleaving of requests, builds, bumps and evictions, an answer served from the
   cache was built by exactly the statements its own question would have run, and that build
   started after the generation the request read had been reached.
   */
  lemma HitAnswersItsQuestion(reg: L.Registry, prefix: string, generation: nat,
                              steps: seq<Step<Question, CacheKey>>, i: nat)
    requires IsRun(KeyOf, generation, steps) && i < |After(KeyOf, generation, steps).hits|
    ensures var w := After(KeyOf, generation, steps); var hit := w.hits[i];
      && Statements(reg, prefix, hit.answered) == Statements(reg, prefix, hit.asked)
      && hit.generation in w.reached && w.reached[hit.generation] <= hit.from
  {
    hide KeyOf, Statements;
    EveryHitIsFresh(KeyOf, generation, steps);
    var hit := After(KeyOf, generation, steps).hits[i];
    KeyDecidesStatements(reg, prefix, hit.answered, hit.asked);
  }
}
