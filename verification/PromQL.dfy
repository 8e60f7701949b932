/**
 Metric queries (`src/query/prometheus.rs`): an optional aggregation with a grouping before
 or after its operand, an optional inner function, and a selector with an optional range.
 */
module PromQL {
  import opened BasicTypes
  import opened Text
  import opened Labels
  import opened Selector
  import opened Normalize
  import opened Parens

  datatype Aggregation = Avg | Min | Max | Sum | Count | Rate

  datatype PromQuery = PromQuery(metricName: string, isSum: bool, aggregation: Aggregation,
                                 filters: seq<FieldMatcher>, groupBy: seq<string>, explicitGrouping: bool)

  datatype AggregationExpr = AggregationExpr(aggregation: Aggregation, groupBy: seq<string>,
                                             explicitGrouping: bool, inner: string)

  const UNSUPPORTED_PROMQL := "unsupported promql"

  function AggregationKeyword(func: string): Option<Aggregation> {
    if func == "avg" then Some(Avg)
    else if func == "min" then Some(Min)
    else if func == "max" then Some(Max)
    else if func == "sum" then Some(Sum)
    else if func == "count" then Some(Count)
    else if func == "rate" then Some(Rate)
    else None
  }

  /** The length of the identifier a text starts with. */
  function IdentLength(raw: string): (n: nat)
    ensures n <= |raw|
  {
    if raw == [] || !IsIdentChar(raw[0]) then 0 else 1 + IdentLength(raw[1..])
  }

  /** The identifier and what follows it; there must be both. */
  function SplitIdent(raw: string): Option<(string, string)> {
    var end := IdentLength(raw);
    if end == |raw| || end == 0 then None else Some((raw[..end], raw[end..]))
  }

  /** The text between the first `(` and the `)` at the end, and what stands before it. */
  function UnwrapFunc(query: string): Option<(string, string)> {
    match Find(query, "(")
    case None => None
    case Some(open) =>
      if query[|query| - 1] == ')' then Some((Trim(query[..open]), Trim(query[open + 1..|query| - 1]))) else None
  }

  function RFind(s: string, c: char): (r: Option<nat>)
    ensures r.Some? ==> r.value < |s| && s[r.value] == c && c !in s[r.value + 1..]
    ensures r.None? ==> c !in s
  {
    if s == [] then None
    else if s[|s| - 1] == c then Some(|s| - 1)
    else
      assert s == s[..|s| - 1] + [s[|s| - 1]];
      RFind(s[..|s| - 1], c)
  }

  function StripRangeSelector(query: string): string {
    var raw := Trim(query);
    match StripSuffix(raw, "]")
    case None => raw
    case Some(s) =>
      match RFind(s, '[')
      case None => raw
      case Some(end) => Trim(raw[..end])
  }

  // ----- Grouping labels -----

  /** The canonical names of the listed labels, each once, in the order they first come in. */
  function ResolveFrom(reg: Registry, labels: seq<string>, parts: seq<string>): ParseResult<seq<string>>
    decreases |parts|
  {
    if parts == [] then Ok(labels)
    else if Trim(parts[0]) == [] then ResolveFrom(reg, labels, parts[1..])
    else
      match CanonicalForAlias(reg, Metrics, Trim(parts[0]))
      case None => Err(UNSUPPORTED_PROMQL)
      case Some(name) => ResolveFrom(reg, if name in labels then labels else labels + [name], parts[1..])
  }

  function LabelList(reg: Registry, raw: string): ParseResult<(seq<string>, string)> {
    match StripPrefix(raw, "(")
    case None => Err(UNSUPPORTED_PROMQL)
    case Some(s) =>
      match SplitOnce(s, ")")
      case None => Err(UNSUPPORTED_PROMQL)
      case Some((inner, rest)) =>
        match ResolveFrom(reg, [], SplitAll(inner, ","))
        case Err(reason) => Err(reason)
        case Ok(labels) => Ok((labels, rest))
  }

  method ParseLabelList(reg: Registry, raw: string) returns (r: ParseResult<(seq<string>, string)>)
    ensures r == LabelList(reg, raw)
  {
    var s := StripPrefix(raw, "(");
    if s.None? {
      return Err(UNSUPPORTED_PROMQL);
    }
    var inner := SplitOnce(s.value, ")");
    if inner.None? {
      return Err(UNSUPPORTED_PROMQL);
    }
    var parts := SplitAll(inner.value.0, ",");
    var labels: seq<string> := [];
    assert parts[0..] == parts;
    for i := 0 to |parts|
      invariant ResolveFrom(reg, [], parts) == ResolveFrom(reg, labels, parts[i..])
    {
      hide CanonicalForAlias, Trim, SplitAll;
      assert parts[i..][0] == parts[i] && parts[i..][1..] == parts[i + 1..];
      var part := Trim(parts[i]);
      if part == [] {
        continue;
      }
      var name := CanonicalForAlias(reg, Metrics, part);
      if name.None? {
        return Err(UNSUPPORTED_PROMQL);
      }
      if name.value !in labels {
        labels := labels + [name.value];
      }
    }
    return Ok((labels, inner.value.1));
  }

  predicate StartsGrouping(s: string) {
    "by" <= s || "without" <= s
  }

  /** The word `by` or `without` and the labels after it; also what remains. */
  function GroupingClause(reg: Registry, s: string): ParseResult<(bool, seq<string>, string)>
    requires StartsGrouping(s)
  {
    var without := "without" <= s;
    var list := if "by" <= s then s[|"by"|..] else s[|"without"|..];
    match LabelList(reg, TrimStart(list))
    case Err(reason) => Err(reason)
    case Ok((labels, rest)) => Ok((without, labels, rest))
  }

  /** Keeps the names that are not listed. */
  function Excluding(names: seq<string>, removed: seq<string>): seq<string> {
    if names == [] then []
    else (if names[0] in removed then [] else [names[0]]) + Excluding(names[1..], removed)
  }

  function GroupBy(reg: Registry, without: bool, labels: seq<string>): seq<string> {
    if without then Excluding(ScopeLabels(reg, Metrics), labels) else labels
  }

  // ----- Aggregations -----

  /** The operand after a grouping that came first. */
  function PrefixGrouped(reg: Registry, agg: Aggregation,
                         clause: (bool, seq<string>, string)): ParseResult<Option<AggregationExpr>> {
    match Parenthesized(TrimStart(clause.2))
    case None => Err(UNSUPPORTED_PROMQL)
    case Some((inner, suffix)) =>
      if TrimStart(suffix) != [] then Err(UNSUPPORTED_PROMQL)
      else Ok(Some(AggregationExpr(agg, GroupBy(reg, clause.0, clause.1), true, inner)))
  }

  /** The operand, and the grouping that may come after it. */
  function SuffixGrouped(reg: Registry, agg: Aggregation, rest: string): ParseResult<Option<AggregationExpr>> {
    match Parenthesized(rest)
    case None => Err(UNSUPPORTED_PROMQL)
    case Some((inner, after)) =>
      var suffix := TrimStart(after);
      if StartsGrouping(suffix) then
        match GroupingClause(reg, suffix)
        case Err(reason) => Err(reason)
        case Ok((without, labels, more)) =>
          if Trim(more) != [] then Err(UNSUPPORTED_PROMQL)
          else Ok(Some(AggregationExpr(agg, GroupBy(reg, without, labels), true, inner)))
      else if suffix != [] then Err(UNSUPPORTED_PROMQL)
      else Ok(Some(AggregationExpr(agg, [], false, inner)))
  }

  function Aggregated(reg: Registry, agg: Aggregation, rest: string): ParseResult<Option<AggregationExpr>> {
    if StartsGrouping(rest) then
      match GroupingClause(reg, rest)
      case Err(reason) => Err(reason)
      case Ok(clause) => PrefixGrouped(reg, agg, clause)
    else SuffixGrouped(reg, agg, rest)
  }

  function AggregationOf(reg: Registry, query: string): ParseResult<Option<AggregationExpr>> {
    match SplitIdent(query)
    case None => Ok(None)
    case Some((func, rest)) =>
      match AggregationKeyword(func)
      case None => Ok(None)
      case Some(Rate) => Ok(None)
      case Some(agg) => Aggregated(reg, agg, TrimStart(rest))
  }

  method ParseAggregation(reg: Registry, query: string) returns (r: ParseResult<Option<AggregationExpr>>)
    ensures r == AggregationOf(reg, query)
  {
    hide LabelList, Parenthesized, TrimStart, Trim, SplitIdent, AggregationKeyword, ScopeLabels, Excluding;
    var ident := SplitIdent(query);
    if ident.None? {
      return Ok(None);
    }
    var keyword := AggregationKeyword(ident.value.0);
    if keyword.None? || keyword.value == Rate {
      return Ok(None);
    }
    var aggregation := keyword.value;
    var rest := TrimStart(ident.value.1);
    var labels: seq<string> := [];
    var without, explicitGrouping := false, false;
    if "by" <= rest || "without" <= rest {
      without := "without" <= rest;
      rest := TrimStart(if "by" <= rest then rest[|"by"|..] else rest[|"without"|..]);
      var parsed := ParseLabelList(reg, rest);
      if parsed.Err? {
        return Err(parsed.reason);
      }
      labels, rest := parsed.value.0, parsed.value.1;
      explicitGrouping := true;
    }
    TrimStartTwice(ident.value.1);
    var operand := ParenthesizedWithSuffix(TrimStart(rest));
    if operand.None? {
      return Err(UNSUPPORTED_PROMQL);
    }
    var inner, suffix := operand.value.0, TrimStart(operand.value.1);
    if !explicitGrouping && ("by" <= suffix || "without" <= suffix) {
      without := "without" <= suffix;
      var parsed := ParseLabelList(reg, TrimStart(if "by" <= suffix then suffix[|"by"|..] else suffix[|"without"|..]));
      if parsed.Err? {
        return Err(parsed.reason);
      }
      labels := parsed.value.0;
      explicitGrouping := true;
      if Trim(parsed.value.1) != [] {
        return Err(UNSUPPORTED_PROMQL);
      }
    } else if suffix != [] {
      return Err(UNSUPPORTED_PROMQL);
    }
    var groupBy := if without then Excluding(ScopeLabels(reg, Metrics), labels) else labels;
    return Ok(Some(AggregationExpr(aggregation, groupBy, explicitGrouping, inner)));
  }

  lemma TrimStartTwice(s: string)
    ensures TrimStart(TrimStart(s)) == TrimStart(s)
  {
  }

  // ----- Metric names -----

  const METRIC_NAME_OVERRIDES: seq<(string, string)> := [
    ("process_runtime_cpython_cpu_time_seconds_total", "process.runtime.cpython.cpu_time"),
    ("otelcol_process_uptime_seconds_total", "otelcol_process_uptime"),
    ("demo_recommendation_requests_total", "app_recommendations_counter")
  ]

  function Dotted(s: string): string {
    seq(|s|, i requires 0 <= i < |s| => if s[i] == '_' then '.' else s[i])
  }

  function WithoutSuffix(s: string, suffix: string): string {
    if StripSuffix(s, suffix).Some? then StripSuffix(s, suffix).value else s
  }

  function StripFirstSuffix(s: string, suffixes: seq<string>): string {
    if suffixes == [] then s
    else if StripSuffix(s, suffixes[0]).Some? then StripSuffix(s, suffixes[0]).value
    else StripFirstSuffix(s, suffixes[1..])
  }

  const UNIT_SUFFIXES := ["_seconds", "_milliseconds", "_bytes", "_ratio", "_count", "_total"]

  predicate KeepsUnderscores(raw: string) {
    "otelcol_exporter_" <= raw || "otelcol_process_" <= raw
  }

  predicate IsDotted(raw: string) {
    "traces_span_metrics_" <= raw || "system_" <= raw || "process_runtime_" <= raw
  }

  function ResolveMetricName(raw: string): string {
    var override := FirstMatch(METRIC_NAME_OVERRIDES, raw);
    var withoutTotal := WithoutSuffix(raw, "_total");
    if override.Some? then override.value
    else if KeepsUnderscores(raw) then withoutTotal
    else if IsDotted(raw) then Dotted(StripFirstSuffix(withoutTotal, UNIT_SUFFIXES))
    else raw
  }

  lemma {:induction false} StrippedSuffix(s: string, suffixes: seq<string>) returns (suffix: string)
    requires "" !in suffixes
    ensures s == StripFirstSuffix(s, suffixes) + suffix && (suffix == "" || suffix in suffixes)
    ensures suffix == "" ==> forall t | t in suffixes :: StripSuffix(s, t).None?
  {
    if suffixes == [] {
      suffix := "";
    } else if StripSuffix(s, suffixes[0]).Some? {
      suffix := suffixes[0];
    } else {
      suffix := StrippedSuffix(s, suffixes[1..]);
    }
  }

  /** A dotted metric name is the raw one without `_total`, without one unit, and without underscores. */
  lemma DottedNameResolves(raw: string) returns (base: string, unit: string, total: string)
    requires FirstMatch(METRIC_NAME_OVERRIDES, raw).None? && IsDotted(raw) && !KeepsUnderscores(raw)
    ensures raw == base + unit + total && ResolveMetricName(raw) == Dotted(base) && '_' !in ResolveMetricName(raw)
    ensures total == if StripSuffix(raw, "_total").Some? then "_total" else ""
    ensures unit == "" || unit in UNIT_SUFFIXES
    ensures unit == "" ==> forall t | t in UNIT_SUFFIXES :: StripSuffix(base, t).None?
  {
    hide StripFirstSuffix, FirstMatch, IsDotted, KeepsUnderscores;
    var trimmed := WithoutSuffix(raw, "_total");
    total := if StripSuffix(raw, "_total").Some? then "_total" else "";
    base := StripFirstSuffix(trimmed, UNIT_SUFFIXES);
    assert forall i | 0 <= i < |UNIT_SUFFIXES| :: |UNIT_SUFFIXES[i]| > 0;
    unit := StrippedSuffix(trimmed, UNIT_SUFFIXES);
  }

  predicate IsSumSignal(raw: string, agg: Aggregation) {
    agg == Rate || StripSuffix(raw, "_total").Some? || StripSuffix(ResolveMetricName(raw), ".sum").Some?
  }

  // ----- The whole query -----

  predicate NamesMetric(m: FieldMatcher) {
    m.field == "__name__" && m.op == Eq
  }

  /** Where the first `__name__` equality stands; the length if there is none. */
  function NamePosition(ms: seq<FieldMatcher>): (i: nat)
    ensures i <= |ms|
    ensures i < |ms| ==> NamesMetric(ms[i])
    ensures forall j | 0 <= j < i :: !NamesMetric(ms[j])
  {
    if ms == [] || NamesMetric(ms[0]) then 0 else 1 + NamePosition(ms[1..])
  }

  /** The metric's name, written before the braces or as a `__name__` matcher, and the other matchers. */
  function NameAndFilters(name: string, ms: seq<FieldMatcher>): ParseResult<(string, seq<FieldMatcher>)> {
    if name != [] then Ok((name, ms))
    else
      var i := NamePosition(ms);
      if i == |ms| then Err(UNSUPPORTED_PROMQL) else Ok((ms[i].value, ms[..i] + ms[i + 1..]))
  }

  /** Group labels are resolved once more when the query is put together. */
  function Regroup(reg: Registry, labels: seq<string>): ParseResult<seq<string>> {
    if labels == [] then Ok([])
    else
      match CanonicalForAlias(reg, Metrics, labels[0])
      case None => Err(UNSUPPORTED_PROMQL)
      case Some(name) =>
        match Regroup(reg, labels[1..])
        case Err(reason) => Err(reason)
        case Ok(names) => Ok([name] + names)
  }

  function Assemble(reg: Registry, agg: Aggregation, groupBy: seq<string>, explicit: bool, name: string,
                    ms: seq<FieldMatcher>): ParseResult<PromQuery> {
    match NameAndFilters(name, ms)
    case Err(reason) => Err(reason)
    case Ok((raw, rest)) =>
      match Normalized(AliasPairsOf(reg, Metrics), rest)
      case Err(reason) => Err(reason)
      case Ok(filters) =>
        match Regroup(reg, groupBy)
        case Err(reason) => Err(reason)
        case Ok(names) => Ok(PromQuery(ResolveMetricName(raw), IsSumSignal(raw, agg), agg, filters, names, explicit))
  }

  function Finish(reg: Registry, agg: Aggregation, groupBy: seq<string>, explicit: bool,
                  query: string): ParseResult<PromQuery> {
    match ParseSelector(StripRangeSelector(query))
    case Err(reason) => Err(reason)
    case Ok((name, ms)) => Assemble(reg, agg, groupBy, explicit, name, ms)
  }

  /** A function around the selector replaces the aggregation found so far. */
  function WithInner(reg: Registry, agg: Aggregation, groupBy: seq<string>, explicit: bool,
                     query: string): ParseResult<PromQuery> {
    match UnwrapFunc(query)
    case None => Finish(reg, agg, groupBy, explicit, query)
    case Some((func, inner)) =>
      match AggregationKeyword(func)
      case None => Err(UNSUPPORTED_PROMQL)
      case Some(own) => Finish(reg, own, groupBy, explicit, Stripped(inner))
  }

  function PromQueryOf(reg: Registry, raw: string): ParseResult<PromQuery> {
    var query := Stripped(Trim(raw));
    match AggregationOf(reg, query)
    case Err(reason) => Err(reason)
    case Ok(Some(expr)) => WithInner(reg, expr.aggregation, expr.groupBy, expr.explicitGrouping, Stripped(expr.inner))
    case Ok(None) =>
      match UnwrapFunc(query)
      case None => WithInner(reg, Avg, [], false, query)
      case Some((func, inner)) =>
        match AggregationKeyword(func)
        case None => Err(UNSUPPORTED_PROMQL)
        case Some(agg) => WithInner(reg, agg, [], false, Stripped(inner))
  }

  method ParsePromQuery(reg: Registry, raw: string) returns (r: ParseResult<PromQuery>)
    ensures r == PromQueryOf(reg, raw)
  {
    hide AggregationOf, UnwrapFunc, AggregationKeyword, Stripped, StripRangeSelector, Normalized, NamePosition,
      Regroup, ResolveMetricName, IsSumSignal, Trim, ParseSelector;
    var query := StripOuterParens(Trim(raw));
    var aggregation := Avg;
    var groupBy: seq<string> := [];
    var explicitGrouping := false;

    var expr := ParseAggregation(reg, query);
    if expr.Err? {
      return Err(expr.reason);
    }
    var func := UnwrapFunc(query);
    if expr.value.Some? {
      aggregation := expr.value.value.aggregation;
      groupBy := expr.value.value.groupBy;
      explicitGrouping := expr.value.value.explicitGrouping;
      query := StripOuterParens(expr.value.value.inner);
    } else if func.Some? {
      var keyword := AggregationKeyword(func.value.0);
      if keyword.None? {
        return Err(UNSUPPORTED_PROMQL);
      }
      aggregation := keyword.value;
      query := StripOuterParens(func.value.1);
    }

    func := UnwrapFunc(query);
    if func.Some? {
      var keyword := AggregationKeyword(func.value.0);
      if keyword.None? {
        return Err(UNSUPPORTED_PROMQL);
      }
      aggregation := keyword.value;
      query := StripOuterParens(func.value.1);
    }

    query := StripRangeSelector(query);
    var selector := ParseSelector(query);
    if selector.Err? {
      return Err(selector.reason);
    }
    var metricName, filters := selector.value.0, selector.value.1;
    if metricName == [] {
      var nameIdx := NamePosition(filters);
      if nameIdx == |filters| {
        return Err(UNSUPPORTED_PROMQL);
      }
      metricName := filters[nameIdx].value;
      filters := filters[..nameIdx] + filters[nameIdx + 1..];
    }
    var normalized := NormalizeMatchers(filters, AliasPairsOf(reg, Metrics));
    if normalized.Err? {
      return Err(normalized.reason);
    }
    var names := Regroup(reg, groupBy);
    if names.Err? {
      return Err(names.reason);
    }
    return Ok(PromQuery(ResolveMetricName(metricName), IsSumSignal(metricName, aggregation), aggregation,
                        normalized.value, names.value, explicitGrouping));
  }
}
