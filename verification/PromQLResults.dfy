/**
 What holds of parsed metric queries: how a label list is resolved, that every parsed group
 label can be selected and read back, and how the forms of a query relate.
 */
module PromQLResults {
  import opened BasicTypes
  import opened Text
  import opened Labels
  import opened Selector
  import opened Normalize
  import opened Parens
  import opened PromQL
  import opened PromQLNames
  import opened PromQLRoundTrip

  // ----- Label lists -----

  /** The first of each repeated name. */
  function Distinct(names: seq<string>): seq<string> {
    if names == [] then [] else [names[0]] + Excluding(Distinct(names[1..]), [names[0]])
  }

  /** The canonical names of the labels that are not blank; a blank one is skipped. */
  ghost function Canonicals(reg: Registry, labels: seq<string>): seq<string> {
    if labels == [] then []
    else if Trim(labels[0]) == [] then Canonicals(reg, labels[1..])
    else
      match CanonicalForAlias(reg, Metrics, Trim(labels[0]))
      case None => Canonicals(reg, labels[1..])
      case Some(name) => [name] + Canonicals(reg, labels[1..])
  }

  ghost predicate AllKnown(reg: Registry, labels: seq<string>) {
    forall i | 0 <= i < |labels| :: Trim(labels[i]) == [] || CanonicalForAlias(reg, Metrics, Trim(labels[i])).Some?
  }

  lemma {:induction false} ExcludingTwice(names: seq<string>, a: seq<string>, b: seq<string>, both: seq<string>)
    requires forall l :: l in both <==> l in a || l in b
    ensures Excluding(Excluding(names, a), b) == Excluding(names, both)
  {
    if names != [] {
      ExcludingTwice(names[1..], a, b, both);
      var later := Excluding(names[1..], a);
      if names[0] !in a {
        assert ([names[0]] + later)[1..] == later;
      } else {
        assert [] + later == later;
      }
    }
  }

  lemma {:induction false} ExcludingNothing(names: seq<string>)
    ensures Excluding(names, []) == names
  {
    if names != [] {
      ExcludingNothing(names[1..]);
    }
  }

  lemma {:induction false} ResolvesOnto(reg: Registry, names: seq<string>, labels: seq<string>)
    ensures ResolveFrom(reg, names, labels) ==
      if AllKnown(reg, labels) then Ok(names + Excluding(Distinct(Canonicals(reg, labels)), names))
      else Err(UNSUPPORTED_PROMQL)
    decreases |labels|
  {
    hide CanonicalForAlias, Trim;
    if labels == [] {
      assert names + [] == names;
    } else {
      KnownCons(reg, labels);
      hide AllKnown;
      var part := Trim(labels[0]);
      var name := CanonicalForAlias(reg, Metrics, part);
      if part == [] {
        ResolvesOnto(reg, names, labels[1..]);
      } else if name.Some? {
        hide Distinct;
        var c, rest := name.value, Canonicals(reg, labels[1..]);
        ResolvesOnto(reg, if c in names then names else names + [c], labels[1..]);
        OneMoreName(names, c, rest);
      }
    }
  }

  /** A name is added unless it is there, and everything after it as well. */
  lemma OneMoreName(names: seq<string>, c: string, rest: seq<string>)
    ensures var grown := if c in names then names else names + [c];
      names + Excluding(Distinct([c] + rest), names) == grown + Excluding(Distinct(rest), grown)
  {
    var later := Distinct(rest);
    DistinctCons(c, rest);
    hide Distinct;
    if c in names {
      ExcludingSeen(names, c, later);
    } else {
      ExcludingNew(names, c, later);
    }
  }

  lemma ExcludingSeen(names: seq<string>, c: string, later: seq<string>)
    requires c in names
    ensures Excluding([c] + Excluding(later, [c]), names) == Excluding(later, names)
  {
    ExcludingTwice(later, [c], names, names);
    assert ([c] + Excluding(later, [c]))[1..] == Excluding(later, [c]);
    assert [] + Excluding(later, names) == Excluding(later, names);
  }

  lemma ExcludingNew(names: seq<string>, c: string, later: seq<string>)
    requires c !in names
    ensures names + Excluding([c] + Excluding(later, [c]), names) == names + [c] + Excluding(later, names + [c])
  {
    ExcludingTwice(later, [c], names, names + [c]);
    assert ([c] + Excluding(later, [c]))[1..] == Excluding(later, [c]);
    assert names + ([c] + Excluding(later, names + [c])) == names + [c] + Excluding(later, names + [c]);
  }

  lemma DistinctCons(c: string, names: seq<string>)
    ensures Distinct([c] + names) == [c] + Excluding(Distinct(names), [c])
  {
    assert ([c] + names)[1..] == names;
  }

  lemma KnownCons(reg: Registry, labels: seq<string>)
    requires labels != []
    ensures AllKnown(reg, labels) <==>
      (Trim(labels[0]) == [] || CanonicalForAlias(reg, Metrics, Trim(labels[0])).Some?) && AllKnown(reg, labels[1..])
  {
    hide CanonicalForAlias, Trim;
    assert forall i | 0 <= i < |labels[1..]| :: labels[1..][i] == labels[i + 1];
    assert forall i | 1 <= i < |labels| :: labels[i] == labels[1..][i - 1];
  }

  /** A label list resolves exactly if every label is known: to their canonical names, each once. */
  lemma ListResolvesExactlyWhen(reg: Registry, labels: seq<string>)
    ensures ResolveFrom(reg, [], labels) ==
      if AllKnown(reg, labels) then Ok(Distinct(Canonicals(reg, labels))) else Err(UNSUPPORTED_PROMQL)
  {
    ResolvesOnto(reg, [], labels);
    ExcludingNothing(Distinct(Canonicals(reg, labels)));
    hide ResolveFrom, Canonicals, Distinct, AllKnown;
    assert [] + Distinct(Canonicals(reg, labels)) == Distinct(Canonicals(reg, labels));
  }

  // ----- Parsed group labels -----

  lemma {:induction false} RegroupResolves(reg: Registry, labels: seq<string>)
    ensures Regroup(reg, labels).Ok? ==> AllResolve(reg, Regroup(reg, labels).value)
  {
    if labels != [] && Regroup(reg, labels).Ok? {
      RegroupResolves(reg, labels[1..]);
      ResolvedHasExpr(reg, Metrics, labels[0]);
      hide CanonicalForAlias, LabelExpr;
    }
  }

  lemma FinishResolves(reg: Registry, agg: Aggregation, groupBy: seq<string>, explicit: bool, query: string)
    ensures var r := Finish(reg, agg, groupBy, explicit, query); r.Ok? ==> AllResolve(reg, r.value.groupBy)
  {
    hide ParseSelector, StripRangeSelector, Normalized, Regroup, NamePosition, ResolveMetricName, IsSumSignal,
      AllResolve;
    RegroupResolves(reg, groupBy);
  }

  lemma InnerResolves(reg: Registry, agg: Aggregation, groupBy: seq<string>, explicit: bool, query: string)
    ensures var r := WithInner(reg, agg, groupBy, explicit, query); r.Ok? ==> AllResolve(reg, r.value.groupBy)
  {
    hide Finish, UnwrapFunc, AggregationKeyword, Stripped, AllResolve;
    var func := UnwrapFunc(query);
    FinishResolves(reg, agg, groupBy, explicit, query);
    if func.Some? {
      var keyword := AggregationKeyword(func.value.0);
      if keyword.Some? {
        FinishResolves(reg, keyword.value, groupBy, explicit, Stripped(func.value.1));
      }
    }
  }

  /** Whatever text is parsed, every group label has a column, and the reader reads the right one. */
  lemma ParsedGroupsAreRead(reg: Registry, raw: string)
    ensures var r := PromQueryOf(reg, raw); r.Ok? ==> ReaderAligned(reg, r.value.groupBy)
  {
    hide WithInner, AggregationOf, UnwrapFunc, AggregationKeyword, Stripped, Trim, AllResolve, ReaderAligned;
    var query := Stripped(Trim(raw));
    var expr, func := AggregationOf(reg, query), UnwrapFunc(query);
    InnerResolves(reg, Avg, [], false, query);
    if expr.Ok? && expr.value.Some? {
      var e := expr.value.value;
      InnerResolves(reg, e.aggregation, e.groupBy, e.explicitGrouping, Stripped(e.inner));
    } else if func.Some? && AggregationKeyword(func.value.0).Some? {
      InnerResolves(reg, AggregationKeyword(func.value.0).value, [], false, Stripped(func.value.1));
    }
    var r := PromQueryOf(reg, raw);
    if r.Ok? {
      ReaderAlignedExactlyWhen(reg, r.value.groupBy);
    }
  }

  // ----- Related forms -----

  /** A grouping may stand before or after the operand. */
  lemma PlacementDoesNotMatter(reg: Registry, e: PromExpr, layers: nat)
    requires Readable(e, layers)
    ensures PromQueryOf(reg, Wrapped(layers, Print(e.(placement := BeforeOperand)))) ==
      PromQueryOf(reg, Wrapped(layers, Print(e.(placement := AfterOperand))))
  {
    hide Readable, Print, PromQueryOf, Wrapped;
    PlacedIsReadable(e, BeforeOperand, layers);
    PlacedIsReadable(e, AfterOperand, layers);
    PrintedMeans(reg, e.(placement := BeforeOperand), layers);
    PrintedMeans(reg, e.(placement := AfterOperand), layers);
  }

  lemma PlacedIsReadable(e: PromExpr, placement: Placement, layers: nat)
    requires Readable(e, layers)
    ensures Readable(e.(placement := placement), layers)
  {
    var placed := e.(placement := placement);
    hide PlainMetric, PlainLabels, Balanced;
    assert Counted(placed) == Counted(e);
    if Counted(e).Some? {
      hide Print, Counted;
      CountedBalances(placed);
    }
  }

  /** `without` groups by exactly the metric labels that `by` of the same list does not. */
  lemma WithoutIsComplement(reg: Registry, e: PromExpr, labels: seq<string>, l: string)
    requires Supported(e.(grouping := By(labels))) && Supported(e.(grouping := Without(labels)))
    ensures var by', without := PromQueryOf(reg, Print(e.(grouping := By(labels)))),
                                PromQueryOf(reg, Print(e.(grouping := Without(labels))));
      && (by'.Ok? <==> without.Ok?)
      && (by'.Ok? ==> (l in without.value.groupBy <==> l in ScopeLabels(reg, Metrics) && l !in by'.value.groupBy))
  {
    hide Supported, Print, PromQueryOf, Wrapped, NameAndFilters, Normalized, NameMeant, SumMeant,
      ResolveFrom;
    PrintedUnwrapped(reg, e.(grouping := By(labels)));
    PrintedUnwrapped(reg, e.(grouping := Without(labels)));
    var names := ResolveFrom(reg, [], labels);
    if names.Ok? {
      ExcludingIs(ScopeLabels(reg, Metrics), names.value, l);
    }
  }

  lemma PrintedUnwrapped(reg: Registry, e: PromExpr)
    requires Supported(e)
    ensures PromQueryOf(reg, Print(e)) == Meaning(reg, e)
  {
    hide Supported, Print, PromQueryOf, Meaning;
    PrintedMeans(reg, e, 0);
    NoLayers(Print(e));
  }

  /** Where the first equality on `__name__` stands, or the length if there is none. */
  ghost predicate FirstName(ms: seq<FieldMatcher>, i: nat) {
    && i <= |ms|
    && (i < |ms| ==> ms[i].field == "__name__" && ms[i].op == Eq)
    && (forall j | 0 <= j < i :: !(ms[j].field == "__name__" && ms[j].op == Eq))
  }

  /** The name a metric is asked for by, and the matchers that are not its name. */
  function WrittenName(m: Metric, i: nat): string
    requires m.name != [] || i < |Matchers(m)|
  {
    if m.name != [] then m.name else Matchers(m)[i].value
  }

  function OtherMatchers(m: Metric, i: nat): seq<FieldMatcher> {
    if m.name != [] || i >= |Matchers(m)| then Matchers(m) else Matchers(m)[..i] + Matchers(m)[i + 1..]
  }

  ghost predicate GroupsAre(reg: Registry, g: Grouping, groups: seq<string>) {
    match g
    case Ungrouped => groups == []
    case By(labels) => groups == Distinct(Canonicals(reg, labels))
    case Without(labels) => groups == Excluding(ScopeLabels(reg, Metrics), Distinct(Canonicals(reg, labels)))
  }

  /** The query asks for the metric meant, from the table meant, with every part as it was written. */
  ghost predicate AsksFor(reg: Registry, e: PromExpr, i: nat, q: PromQuery)
    requires e.metric.name != [] || i < |Matchers(e.metric)|
  {
    var written := WrittenName(e.metric, i);
    && q.metricName == NameMeant(written)
    && (q.isSum <==> SumMeant(written, q.aggregation))
    && q.aggregation == (if e.func.Some? then e.func.value else if e.outer.Some? then e.outer.value else Avg)
    && IsRenamed(AliasPairsOf(reg, Metrics), OtherMatchers(e.metric, i), q.filters)
    && GroupsAre(reg, e.grouping, q.groupBy)
    && (q.explicitGrouping <==> e.grouping != Ungrouped)
  }

  /**
   A query has a meaning exactly if its grouping labels are known, the metric has a name
   before its braces or in them, and the other labels are supported and do not disagree.
   */
  lemma MeaningExactlyWhen(reg: Registry, e: PromExpr) returns (i: nat)
    ensures FirstName(Matchers(e.metric), i)
    ensures var pairs, others := AliasPairsOf(reg, Metrics), OtherMatchers(e.metric, i);
      Meaning(reg, e).Ok? <==>
        && (e.grouping != Ungrouped ==> AllKnown(reg, e.grouping.labels))
        && (e.metric.name != [] || i < |Matchers(e.metric)|)
        && AllSupported(pairs, others) && Consistent(pairs, others)
    ensures Meaning(reg, e).Ok? ==>
      (e.metric.name != [] || i < |Matchers(e.metric)|) && AsksFor(reg, e, i, Meaning(reg, e).value)
  {
    i := NamePosition(Matchers(e.metric));
    GroupsExactlyWhen(reg, e.grouping);
    hide NameMeant, SumMeant, AllKnown, AllSupported, Consistent, IsRenamed, AliasPairsOf, Selected, GroupsMeant,
      GroupsAre, OtherMatchers;
    if GroupsMeant(reg, e.grouping).Ok? {
      SelectedExactlyWhen(reg, AggregationMeant(e), GroupsMeant(reg, e.grouping).value, e.grouping != Ungrouped,
                          e.metric, i);
    }
  }

  lemma GroupsExactlyWhen(reg: Registry, g: Grouping)
    ensures GroupsMeant(reg, g).Ok? <==> (g != Ungrouped ==> AllKnown(reg, g.labels))
    ensures GroupsMeant(reg, g).Ok? ==> GroupsAre(reg, g, GroupsMeant(reg, g).value)
  {
    if g != Ungrouped {
      ListResolvesExactlyWhen(reg, g.labels);
    }
    hide ResolveFrom, AllKnown, Canonicals, Distinct, Excluding, ScopeLabels;
  }

  lemma SelectedExactlyWhen(reg: Registry, agg: Aggregation, groups: seq<string>, explicit: bool, m: Metric, i: nat)
    requires i == NamePosition(Matchers(m))
    ensures var pairs, others, q := AliasPairsOf(reg, Metrics), OtherMatchers(m, i),
        Selected(reg, agg, groups, explicit, m.name, Matchers(m));
      && (q.Ok? <==> (m.name != [] || i < |Matchers(m)|) && AllSupported(pairs, others) && Consistent(pairs, others))
      && (q.Ok? ==>
            && IsRenamed(pairs, others, q.value.filters)
            && var w := WrittenName(m, i);
               q.value == PromQuery(NameMeant(w), SumMeant(w, agg), agg, q.value.filters, groups, explicit))
  {
    NormalizesExactlyWhen(AliasPairsOf(reg, Metrics), OtherMatchers(m, i));
    hide NamePosition, Normalized, NameMeant, SumMeant, AllSupported, Consistent, IsRenamed, AliasPairsOf;
  }

  /** A function around the selector decides the aggregation, whatever stands outside. */
  lemma InnerOverridesOuter(reg: Registry, e: PromExpr, func: Aggregation)
    requires Supported(e) && e.func == Some(func)
    ensures var r := PromQueryOf(reg, Print(e)); r.Ok? ==> r.value.aggregation == func
  {
    hide Supported, Print, PromQueryOf, NameAndFilters, Normalized, NameMeant, SumMeant, GroupsMeant;
    PrintedUnwrapped(reg, e);
  }

  /** A `__name__` matcher names the metric just as the text before the braces does. */
  lemma NameLabelNamesMetric(reg: Registry, e: PromExpr, name: string, ms: seq<FieldMatcher>, i: nat)
    requires i <= |ms| && name != [] && (forall j | 0 <= j < i :: !NamesMetric(ms[j]))
    requires e.metric == Braced(name, ms, e.metric.range) && Supported(e)
    requires Printable(FieldMatcher("__name__", name, Eq))
    ensures var named := Braced([], ms[..i] + [FieldMatcher("__name__", name, Eq)] + ms[i..], e.metric.range);
      PromQueryOf(reg, Print(e.(metric := named))) == PromQueryOf(reg, Print(e))
  {
    hide Supported, Print, PromQueryOf, GroupsMeant, Selected, Printable;
    var m := FieldMatcher("__name__", name, Eq);
    var all := ms[..i] + [m] + ms[i..];
    var named := e.(metric := Braced([], all, e.metric.range));
    NamedIsSupported(e, name, ms, i, m, all);
    PrintedUnwrapped(reg, e);
    PrintedUnwrapped(reg, named);
    if GroupsMeant(reg, e.grouping).Ok? {
      NameTaken(reg, AggregationMeant(e), GroupsMeant(reg, e.grouping).value, e.grouping != Ungrouped, m, ms, i);
    }
  }

  lemma NameTaken(reg: Registry, agg: Aggregation, groups: seq<string>, explicit: bool, m: FieldMatcher,
                  ms: seq<FieldMatcher>, i: nat)
    requires i <= |ms| && NamesMetric(m) && m.value != [] && (forall j | 0 <= j < i :: !NamesMetric(ms[j]))
    ensures Selected(reg, agg, groups, explicit, [], ms[..i] + [m] + ms[i..]) ==
      Selected(reg, agg, groups, explicit, m.value, ms)
  {
    var all := ms[..i] + [m] + ms[i..];
    NamePositionAt(all, i);
    hide NamePosition, Normalized, NameMeant, SumMeant;
    assert all[..i] + all[i + 1..] == ms;
  }

  lemma {:induction false} NamePositionAt(ms: seq<FieldMatcher>, i: nat)
    requires i < |ms| && NamesMetric(ms[i]) && forall j | 0 <= j < i :: !NamesMetric(ms[j])
    ensures NamePosition(ms) == i
  {
    if i > 0 {
      NamePositionAt(ms[1..], i - 1);
    }
  }

  function AllParens(ms: seq<FieldMatcher>): string {
    if ms == [] then [] else OnlyParens(PrintMatcher(ms[0])) + AllParens(ms[1..])
  }

  lemma {:induction false} AllParensConcat(a: seq<FieldMatcher>, b: seq<FieldMatcher>)
    ensures AllParens(a + b) == AllParens(a) + AllParens(b)
  {
    hide OnlyParens, PrintMatcher;
    if a == [] {
      assert a + b == b;
    } else {
      assert (a + b)[1..] == a[1..] + b;
      AllParensConcat(a[1..], b);
    }
  }

  lemma {:induction false} BlockParens(ms: seq<FieldMatcher>)
    ensures OnlyParens(Join(PrintMatchers(ms), ",")) == AllParens(ms)
  {
    if ms != [] {
      hide OnlyParens, PrintMatcher;
      var p, later := PrintMatcher(ms[0]), PrintMatchers(ms[1..]);
      assert PrintMatchers(ms) == [p] + later;
      BlockParens(ms[1..]);
      if |ms| > 1 {
        JoinCons(p, later);
        NoneLeft(",");
        OnlyParensConcat(p + ",", Join(later, ","));
        OnlyParensConcat(p, ",");
      } else {
        assert AllParens(ms[1..]) == [] && Join([p], ",") == p;
      }
    }
  }

  /** The parentheses of a printed metric are those of its matchers. */
  lemma MetricParens(m: Metric)
    requires PlainMetric(m) && m.Braced?
    ensures OnlyParens(PrintMetric(m)) == AllParens(m.matchers)
  {
    hide PlainMetric, OnlyParens, AllParens, PrintMatchers, Join, PrintMetric;
    var block := Join(PrintMatchers(m.matchers), ",");
    var end := MetricEnds(m);
    BlockParens(m.matchers);
    NoneLeft(m.name + "{");
    NoneLeft(end);
    OnlyParensConcat(m.name + "{", block);
    OnlyParensConcat(m.name + "{" + block, end);
  }

  /** What stands after the matchers of a printed metric. */
  lemma MetricEnds(m: Metric) returns (end: string)
    requires PlainMetric(m) && m.Braced?
    ensures PrintMetric(m) == m.name + "{" + Join(PrintMatchers(m.matchers), ",") + end
    ensures NoParens(end) && NoParens(m.name + "{")
  {
    hide PrintMatchers, Join;
    IdentIsPlain(m.name);
    end := "}" + if m.range.None? then "" else "[" + m.range.value + "]";
  }

  lemma NamedHasSameParens(name: string, ms: seq<FieldMatcher>, i: nat, m: FieldMatcher)
    requires i <= |ms| && AllIdentChars(name) && m == FieldMatcher("__name__", name, Eq)
    ensures AllParens(ms[..i] + [m] + ms[i..]) == AllParens(ms)
  {
    hide OnlyParens, PrintMatcher, AllIdentChars;
    NameMatcherParens(name);
    WithoutParensAdded(ms, i, m);
  }

  lemma WithoutParensAdded(ms: seq<FieldMatcher>, i: nat, m: FieldMatcher)
    requires i <= |ms| && AllParens([m]) == []
    ensures AllParens(ms[..i] + [m] + ms[i..]) == AllParens(ms)
  {
    hide AllParens;
    AllParensConcat(ms[..i] + [m], ms[i..]);
    AllParensConcat(ms[..i], [m]);
    AllParensConcat(ms[..i], ms[i..]);
    assert AllParens(ms[..i]) + [] == AllParens(ms[..i]);
    assert ms == ms[..i] + ms[i..];
  }

  lemma NameMatcherParens(name: string)
    requires AllIdentChars(name)
    ensures AllParens([FieldMatcher("__name__", name, Eq)]) == []
  {
    var m := FieldMatcher("__name__", name, Eq);
    IdentIsPlain(name);
    NameMatcherPrinted(name);
    assert NoParens("__name__=\"" + name + "\"");
    NoneLeft(PrintMatcher(m));
    OnlyMatcherParens(m);
  }

  lemma OnlyMatcherParens(m: FieldMatcher)
    ensures AllParens([m]) == OnlyParens(PrintMatcher(m))
  {
    hide OnlyParens, PrintMatcher;
    assert [m][1..] == [];
  }

  lemma NameMatcherPrinted(name: string)
    ensures PrintMatcher(FieldMatcher("__name__", name, Eq)) == "__name__=\"" + name + "\""
  {
    assert "__name__" + "=" + "\"" == "__name__=\"";
  }

  lemma OperandParens(e1: PromExpr, e2: PromExpr)
    requires e1.func == e2.func && OnlyParens(PrintMetric(e1.metric)) == OnlyParens(PrintMetric(e2.metric))
    ensures OnlyParens(PrintOperand(e1)) == OnlyParens(PrintOperand(e2))
  {
    hide OnlyParens, PrintMetric, KeywordText;
    if e1.func.Some? {
      var start := KeywordText(e1.func.value) + "(";
      OnlyParensConcat(start, PrintMetric(e1.metric));
      OnlyParensConcat(start, PrintMetric(e2.metric));
      OnlyParensConcat(start + PrintMetric(e1.metric), ")");
      OnlyParensConcat(start + PrintMetric(e2.metric), ")");
    }
  }

  lemma NamedIsPlain(metric: Metric, i: nat, m: FieldMatcher)
    requires metric.Braced? && i <= |metric.matchers| && PlainMetric(metric)
    requires m == FieldMatcher("__name__", metric.name, Eq) && Printable(m)
    ensures PlainMetric(Braced([], metric.matchers[..i] + [m] + metric.matchers[i..], metric.range))
  {
    hide Printable;
    var all := metric.matchers[..i] + [m] + metric.matchers[i..];
    forall j | 0 <= j < |all| ensures PlainMatcher(all[j]) {
      if j < i { assert all[j] == Matchers(metric)[j]; }
      else if j > i { assert all[j] == Matchers(metric)[j - 1]; }
    }
  }

  lemma NamedIsSupported(e: PromExpr, name: string, ms: seq<FieldMatcher>, i: nat, m: FieldMatcher,
                         all: seq<FieldMatcher>)
    requires i <= |ms| && name != [] && e.metric == Braced(name, ms, e.metric.range) && Supported(e)
    requires m == FieldMatcher("__name__", name, Eq) && Printable(m) && all == ms[..i] + [m] + ms[i..]
    ensures Supported(e.(metric := Braced([], all, e.metric.range)))
  {
    var named := e.(metric := Braced([], all, e.metric.range));
    NamedIsPlain(e.metric, i, m);
    NameIsIdent(e.metric);
    hide PlainMetric, PlainLabels, Printable, Balanced, OnlyParens, AllParens, PrintMetric, PrintOperand;
    MetricParens(e.metric);
    MetricParens(named.metric);
    NamedHasSameParens(name, ms, i, m);
    OperandParens(e, named);
    SameParensSameBalance(PrintOperand(e), PrintOperand(named));
    SameParensSameBalance(PrintMetric(e.metric), PrintMetric(named.metric));
  }

  lemma NoOperandFails(reg: Registry, name: string, rest: string)
    requires AllIdentChars(name) && rest != [] && (rest[0] == '{' || rest[0] == '[')
    requires AggregationKeyword(name).Some? && AggregationKeyword(name) != Some(Rate)
    ensures AggregationOf(reg, name + rest).Err?
  {
    assert name != [];
    IdentLengthAt(name, rest);
    hide AggregationKeyword, GroupingClause;
    assert (name + rest)[..|name|] == name && (name + rest)[|name|..] == rest;
    assert TrimStart(rest) == rest;
  }

  /** A lone metric that does not read as one is refused. */
  lemma AggregationNameIsRefused(reg: Registry, m: Metric)
    requires PlainMetric(m) && !ReadsAsMetric(m)
    ensures PromQueryOf(reg, PrintMetric(m)).Err?
  {
    hide PlainMetric, PrintMetric, AggregationKeyword, AggregationOf, Stripped, Trim, Standing, WithInner, UnwrapFunc;
    var rest := AfterName(m);
    NameIsIdent(m);
    MetricStands(m);
    StandingStays(PrintMetric(m));
    NoOperandFails(reg, m.name, rest);
  }

  function Lone(m: Metric): PromExpr {
    PromExpr(None, Ungrouped, BeforeOperand, None, m)
  }

  /**
   A lone metric with a meaning is parsed to it exactly if its name is no aggregation other
   than `rate`, or it stands without braces and range.
   */
  lemma LoneMetricExactlyWhen(reg: Registry, m: Metric)
    requires PlainMetric(m) && Meaning(reg, Lone(m)).Ok?
    ensures PromQueryOf(reg, PrintMetric(m)) == Meaning(reg, Lone(m)) <==>
      AggregationKeyword(m.name) in {None, Some(Rate)} || (m.Bare? && m.range.None?)
  {
    hide PlainMetric, PrintMetric, AggregationKeyword, PromQueryOf, Meaning;
    if ReadsAsMetric(m) {
      PrintedUnwrapped(reg, Lone(m));
    } else {
      AggregationNameIsRefused(reg, m);
    }
  }
}
