/**
 What a metric query means, and that every query of the supported subset, printed in any of
 its forms, is parsed to its meaning.
 */
module PromQLRoundTrip {
  import opened BasicTypes
  import opened Text
  import opened Labels
  import opened Selector
  import opened Normalize
  import opened Parens
  import opened PromQL
  import opened PromQLNames

  datatype Grouping = Ungrouped | By(labels: seq<string>) | Without(labels: seq<string>)

  datatype Placement = BeforeOperand | AfterOperand

  datatype Metric = Bare(name: string, range: Option<string>)
                  | Braced(name: string, matchers: seq<FieldMatcher>, range: Option<string>)

  datatype PromExpr = PromExpr(outer: Option<Aggregation>, grouping: Grouping, placement: Placement,
                               func: Option<Aggregation>, metric: Metric)

  // ----- Meaning -----

  function Matchers(m: Metric): seq<FieldMatcher> {
    match m case Bare(_, _) => [] case Braced(_, ms, _) => ms
  }

  /** The inner function wins over the outer aggregation; without either the average is taken. */
  function AggregationMeant(e: PromExpr): Aggregation {
    match (e.func, e.outer) case (Some(f), _) => f case (None, Some(o)) => o case (None, None) => Avg
  }

  function GroupsMeant(reg: Registry, g: Grouping): ParseResult<seq<string>> {
    match g
    case Ungrouped => Ok([])
    case By(labels) => ResolveFrom(reg, [], labels)
    case Without(labels) =>
      match ResolveFrom(reg, [], labels)
      case Err(reason) => Err(reason)
      case Ok(removed) => Ok(Excluding(ScopeLabels(reg, Metrics), removed))
  }

  function Meaning(reg: Registry, e: PromExpr): ParseResult<PromQuery> {
    match GroupsMeant(reg, e.grouping)
    case Err(reason) => Err(reason)
    case Ok(groups) => Selected(reg, AggregationMeant(e), groups, e.grouping != Ungrouped, e.metric.name,
      Matchers(e.metric))
  }

  function Selected(reg: Registry, agg: Aggregation, groups: seq<string>, explicit: bool, name: string,
                    ms: seq<FieldMatcher>): ParseResult<PromQuery> {
    match NameAndFilters(name, ms)
    case Err(reason) => Err(reason)
    case Ok((raw, rest)) =>
      match Normalized(AliasPairsOf(reg, Metrics), rest)
      case Err(reason) => Err(reason)
      case Ok(filters) => Ok(PromQuery(NameMeant(raw), SumMeant(raw, agg), agg, filters, groups, explicit))
  }

  // ----- Printing -----

  function KeywordText(agg: Aggregation): string {
    match agg
    case Avg => "avg" case Min => "min" case Max => "max" case Sum => "sum" case Count => "count" case Rate => "rate"
  }

  function PrintBase(m: Metric): string {
    match m case Bare(name, _) => name case Braced(name, ms, _) => PrintSelector(name, ms)
  }

  function PrintMetric(m: Metric): string {
    PrintBase(m) + if m.range.None? then "" else "[" + m.range.value + "]"
  }

  function Call(agg: Aggregation, operand: string): string {
    KeywordText(agg) + "(" + operand + ")"
  }

  function PrintOperand(e: PromExpr): string {
    if e.func.Some? then Call(e.func.value, PrintMetric(e.metric)) else PrintMetric(e.metric)
  }

  function PrintClause(word: string, labels: seq<string>): string {
    word + " (" + Join(labels, ",") + ")"
  }

  function PrintGrouped(agg: Aggregation, clause: string, placement: Placement, operand: string): string {
    match placement
    case BeforeOperand => KeywordText(agg) + " " + clause + " (" + operand + ")"
    case AfterOperand => KeywordText(agg) + "(" + operand + ") " + clause
  }

  function Print(e: PromExpr): string {
    match (e.outer, e.grouping)
    case (None, _) => PrintOperand(e)
    case (Some(agg), Ungrouped) => Call(agg, PrintOperand(e))
    case (Some(agg), By(labels)) => PrintGrouped(agg, PrintClause("by", labels), e.placement, PrintOperand(e))
    case (Some(agg), Without(labels)) => PrintGrouped(agg, PrintClause("without", labels), e.placement, PrintOperand(e))
  }

  // ----- The supported subset -----

  predicate NoParens(s: string) {
    '(' !in s && ')' !in s
  }

  predicate PlainMatcher(m: FieldMatcher) {
    Printable(m) && NoParens(m.field)
  }

  ghost predicate PlainMetric(m: Metric) {
    && AllIdentChars(m.name)
    && (m.Bare? ==> m.name != [])
    && (forall i | 0 <= i < |Matchers(m)| :: PlainMatcher(Matchers(m)[i]))
    && (m.range.Some? ==> NoParens(m.range.value) && '[' !in m.range.value)
  }

  ghost predicate PlainLabels(labels: seq<string>) {
    forall i | 0 <= i < |labels| :: NoParens(labels[i]) && ',' !in labels[i]
  }

  /** The text of a lone metric is not taken for an aggregation without its operand. */
  predicate ReadsAsMetric(m: Metric) {
    AggregationKeyword(m.name) in {None, Some(Rate)} || (m.Bare? && m.range.None?)
  }

  /** A grouping needs an aggregation, and `rate` takes none. */
  ghost predicate Formed(e: PromExpr) {
    && PlainMetric(e.metric)
    && (e.grouping != Ungrouped ==> e.outer.Some? && PlainLabels(e.grouping.labels))
    && (e.outer.Some? ==> e.outer.value != Rate)
  }

  /** The operand of the outermost aggregation, whose end is found by counting parentheses. */
  function Counted(e: PromExpr): Option<string> {
    if e.outer.Some? then Some(PrintOperand(e))
    else if e.func in {None, Some(Rate)} then None
    else Some(PrintMetric(e.metric))
  }

  /** A lone metric reads as a metric, and parentheses are balanced where they are counted. */
  ghost predicate Supported(e: PromExpr) {
    && Formed(e)
    && (e.outer.None? && e.func.None? ==> ReadsAsMetric(e.metric))
    && (Counted(e).Some? ==> Balanced(Counted(e).value))
  }

  /** They are counted around the whole query as well, if it is wrapped. */
  ghost predicate Readable(e: PromExpr, layers: nat) {
    Supported(e) && (layers > 0 ==> Balanced(Print(e)))
  }

  // ----- The metric -----

  lemma IdentIsPlain(s: string)
    requires AllIdentChars(s)
    ensures Trimmed(s) && NoParens(s) && '{' !in s && '[' !in s && ']' !in s
  {
  }

  lemma {:induction false} IdentLengthAt(name: string, rest: string)
    requires AllIdentChars(name) && (rest == [] || !IsIdentChar(rest[0]))
    ensures IdentLength(name + rest) == |name|
  {
    if name == [] {
      assert name + rest == rest;
    } else {
      assert (name + rest)[1..] == name[1..] + rest;
      IdentLengthAt(name[1..], rest);
    }
  }

  lemma BareParses(name: string)
    requires AllIdentChars(name) && name != []
    ensures ParseSelector(name) == Ok((name, []))
  {
    IdentIsPlain(name);
    TrimIdentity(name);
    FindNothing(name, "{");
  }

  lemma MatchersPlain(m: Metric)
    requires PlainMetric(m) && m.Braced?
    ensures AllPrintable(m.matchers) && forall i | 0 <= i < |m.matchers| :: PlainMatcher(m.matchers[i])
  {
    hide Printable, Balanced;
    forall i | 0 <= i < |m.matchers| ensures PlainMatcher(m.matchers[i]) && Printable(m.matchers[i]) {
      assert PlainMatcher(Matchers(m)[i]);
    }
  }

  lemma BaseParses(m: Metric)
    requires PlainMetric(m)
    ensures ParseSelector(PrintBase(m)) == Ok((m.name, Matchers(m)))
  {
    hide ParseSelector, Printable;
    IdentIsPlain(m.name);
    match m
    case Bare(name, _) => BareParses(name);
    case Braced(name, ms, _) =>
      MatchersPlain(m);
      SelectorRoundTrip(name, ms);
  }

  /** What stands at the ends of a printed metric without its range. */
  lemma BaseEnds(m: Metric)
    requires PlainMetric(m)
    ensures var base := PrintBase(m);
      && base != [] && Trimmed(base) && base[0] != '(' && base[|base| - 1] != ')' && base[|base| - 1] != ']'
      && m.name <= base && (|m.name| < |base| ==> base[|m.name|] == '{')
  {
    IdentIsPlain(m.name);
    var base := PrintBase(m);
    if m.Braced? {
      assert base[|base| - 1] == '}' && base[0] == if m.name == [] then '{' else m.name[0];
    }
  }

  lemma {:induction false} RFindLast(a: string, c: char, b: string)
    requires c !in b
    ensures RFind(a + [c] + b, c) == Some(|a|)
    decreases |b|
  {
    var s := a + [c] + b;
    if b != [] {
      assert s[|s| - 1] == b[|b| - 1];
      assert s[..|s| - 1] == a + [c] + b[..|b| - 1];
      RFindLast(a, c, b[..|b| - 1]);
    }
  }

  lemma RangeCut(base: string, range: string)
    requires Trimmed(base) && base != [] && '[' !in range
    ensures StripRangeSelector(base + "[" + range + "]") == base
    ensures Trimmed(base + "[" + range + "]")
  {
    hide Trim, RFind;
    var t := base + "[" + range + "]";
    assert t[|t| - 1] == ']' && t[0] == base[0];
    TrimIdentity(t);
    TrimIdentity(base);
    RFindLast(base, '[', range);
    assert t[..|t| - 1] == base + ['['] + range && t[|t| - 1..] == "]";
    assert t[..|base|] == base;
  }

  lemma RangeStripped(m: Metric)
    requires PlainMetric(m)
    ensures StripRangeSelector(PrintMetric(m)) == PrintBase(m)
    ensures Trimmed(PrintMetric(m))
  {
    hide PlainMetric, PrintBase, Trim, Trimmed, StripRangeSelector;
    var base := PrintBase(m);
    BaseEnds(m);
    if m.range.None? {
      assert PrintMetric(m) == base;
      NoRangeStays(base);
    } else {
      RangeIsPlain(m);
      RangeCut(base, m.range.value);
      assert PrintMetric(m) == base + "[" + m.range.value + "]";
    }
  }

  lemma NoRangeStays(base: string)
    requires Trimmed(base) && base != [] && base[|base| - 1] != ']'
    ensures StripRangeSelector(base) == base
  {
    TrimIdentity(base);
    assert base[|base| - 1..] == [base[|base| - 1]];
  }

  lemma RangeIsPlain(m: Metric)
    requires PlainMetric(m) && m.range.Some?
    ensures NoParens(m.range.value) && '[' !in m.range.value
  {
  }

  lemma MetricFinishes(reg: Registry, agg: Aggregation, groups: seq<string>, explicit: bool, m: Metric)
    requires PlainMetric(m)
    ensures Finish(reg, agg, groups, explicit, PrintMetric(m)) ==
      Assemble(reg, agg, groups, explicit, m.name, Matchers(m))
  {
    hide PlainMetric, PrintMetric, PrintBase, Assemble, ParseSelector, StripRangeSelector;
    RangeStripped(m);
    BaseParses(m);
  }

  /** A printed metric is no function call. */
  lemma MetricIsNoCall(m: Metric)
    requires PlainMetric(m)
    ensures UnwrapFunc(PrintMetric(m)).None?
    ensures PrintMetric(m) != [] && PrintMetric(m)[0] != '('
  {
    hide PlainMetric, PrintBase, Find;
    BaseEnds(m);
    var t := PrintMetric(m);
    assert t[|t| - 1] != ')' && t[0] == PrintBase(m)[0];
  }

  /** What follows a metric's name. */
  lemma AfterName(m: Metric) returns (rest: string)
    requires PlainMetric(m)
    ensures PrintMetric(m) == m.name + rest
    ensures rest != [] ==> rest[0] == '{' || rest[0] == '['
    ensures m.Braced? || m.range.Some? <==> rest != []
  {
    hide PlainMetric;
    var t := PrintMetric(m);
    BaseEnds(m);
    rest := t[|m.name|..];
    assert t[..|m.name|] == m.name;
    if rest != [] {
      assert rest[0] == t[|m.name|];
    }
  }

  lemma MetricIsNoAggregation(reg: Registry, m: Metric)
    requires PlainMetric(m) && ReadsAsMetric(m)
    ensures AggregationOf(reg, PrintMetric(m)) == Ok(None)
  {
    hide PlainMetric, PrintMetric, AggregationKeyword, Aggregated;
    var rest := AfterName(m);
    assert m.Bare? && m.range.None? ==> rest == [];
    NameIsIdent(m);
    IdentLengthAt(m.name, rest);
    assert (m.name + rest)[..|m.name|] == m.name;
  }

  lemma NameIsIdent(m: Metric)
    requires PlainMetric(m)
    ensures AllIdentChars(m.name)
  {
  }

  // ----- Balance -----

  lemma NoParensIsBalanced(s: string)
    requires NoParens(s)
    ensures Balanced(s)
  {
    NoParensBalanced(1, s);
  }

  // ----- Calls -----

  lemma KeywordIsPlain(agg: Aggregation)
    ensures AllIdentChars(KeywordText(agg)) && KeywordText(agg) != []
    ensures AggregationKeyword(KeywordText(agg)) == Some(agg)
  {
  }

  /** A text with nothing at its ends that could be trimmed or stripped. */
  predicate Standing(s: string) {
    s != [] && Trimmed(s) && s[0] != '('
  }

  predicate IsOperand(s: string) {
    Standing(s) && Balanced(s)
  }

  lemma StandingStays(s: string)
    requires Standing(s)
    ensures Stripped(s) == s && Trim(s) == s
  {
    TrimIdentity(s);
  }

  lemma MetricStands(m: Metric)
    requires PlainMetric(m)
    ensures Standing(PrintMetric(m))
  {
    hide PlainMetric, PrintMetric;
    RangeStripped(m);
    MetricIsNoCall(m);
  }

  lemma CallStands(agg: Aggregation, operand: string)
    ensures Standing(Call(agg, operand))
  {
    var kw, s := KeywordText(agg), Call(agg, operand);
    KeywordIsPlain(agg);
    IdentIsPlain(kw);
    assert s[0] == kw[0] && s[|s| - 1] == ')';
  }

  lemma CallBalanced(agg: Aggregation, operand: string)
    requires Balanced(operand)
    ensures Balanced(Call(agg, operand))
  {
    var kw := KeywordText(agg);
    KeywordIsPlain(agg);
    IdentIsPlain(kw);
    NoParensIsBalanced(kw);
    BalancedWrapped(operand);
    hide Balanced;
    BalancedConcat(kw, "(" + operand + ")");
    assert Call(agg, operand) == kw + ("(" + operand + ")");
  }

  lemma CallUnwraps(agg: Aggregation, operand: string)
    requires Standing(operand)
    ensures UnwrapFunc(Call(agg, operand)) == Some((KeywordText(agg), operand))
  {
    hide Trim, Find, Balanced;
    var kw, s := KeywordText(agg), Call(agg, operand);
    KeywordIsPlain(agg);
    IdentIsPlain(kw);
    assert s == kw + "(" + (operand + ")");
    FindAfter(kw, "(", operand + ")");
    TrimIdentity(kw);
    TrimIdentity(operand);
    assert s[..|kw|] == kw && s[|kw| + 1..|s| - 1] == operand;
  }

  /** The keyword of a printed aggregation is found, and what follows it. */
  lemma KeywordSplits(reg: Registry, agg: Aggregation, rest: string)
    requires rest != [] && !IsIdentChar(rest[0])
    ensures AggregationOf(reg, KeywordText(agg) + rest) == if agg ==
      Rate then Ok(None) else Aggregated(reg, agg, TrimStart(rest))
  {
    hide Aggregated, AggregationKeyword, TrimStart;
    var kw := KeywordText(agg);
    KeywordIsPlain(agg);
    IdentLengthAt(kw, rest);
    hide KeywordText;
    assert (kw + rest)[..|kw|] == kw && (kw + rest)[|kw|..] == rest;
  }

  lemma CallAggregates(reg: Registry, agg: Aggregation, operand: string)
    requires agg != Rate && IsOperand(operand)
    ensures AggregationOf(reg, Call(agg, operand)) == Ok(Some(AggregationExpr(agg, [], false, operand)))
  {
    hide AggregationOf, Parenthesized, KeywordText, Trim, Balanced;
    var rest := "(" + operand + ")";
    assert Call(agg, operand) == KeywordText(agg) + rest;
    KeywordSplits(reg, agg, rest);
    assert TrimStart(rest) == rest;
    assert rest == rest + [];
    CutAtPartner(operand, []);
    TrimIdentity([]);
    StandingStays(operand);
  }

  lemma RateIsNoAggregation(reg: Registry, operand: string)
    ensures AggregationOf(reg, Call(Rate, operand)) == Ok(None)
  {
    var rest := "(" + operand + ")";
    KeywordSplits(reg, Rate, rest);
    hide AggregationOf, KeywordText;
    assert Call(Rate, operand) == KeywordText(Rate) + rest;
  }

  // ----- Groupings -----

  lemma {:induction false} JoinedNoParens(labels: seq<string>)
    requires PlainLabels(labels)
    ensures NoParens(Join(labels, ","))
    decreases |labels|
  {
    if |labels| > 1 {
      JoinedNoParens(labels[1..]);
    }
  }

  lemma ListResolves(reg: Registry, labels: seq<string>)
    requires PlainLabels(labels)
    ensures ResolveFrom(reg, [], SplitAll(Join(labels, ","), ",")) == ResolveFrom(reg, [], labels)
  {
    hide CanonicalForAlias;
    if labels == [] {
      FindNothing("", ",");
      assert SplitAll("", ",") == [""];
      TrimIdentity("");
      assert ResolveFrom(reg, [], [""]) == ResolveFrom(reg, [], [""][1..]);
      assert [""][1..] == labels;
    } else {
      CommasSplit(labels);
    }
  }

  function WithRest(r: ParseResult<seq<string>>, without: bool,
                    rest: string): ParseResult<(bool, seq<string>, string)> {
    match r
    case Err(reason) => Err(reason)
    case Ok(labels) => Ok((without, labels, rest))
  }

  lemma ListParses(reg: Registry, labels: seq<string>, rest: string)
    requires PlainLabels(labels)
    ensures LabelList(reg, "(" + Join(labels, ",") + ")" + rest) ==
      match ResolveFrom(reg, [], labels)
      case Err(reason) => Err(reason)
      case Ok(names) => Ok((names, rest))
  {
    hide ResolveFrom, SplitAll, Join, PlainLabels, SplitOnce;
    var inner := Join(labels, ",");
    var s := "(" + inner + ")" + rest;
    JoinedNoParens(labels);
    FindAfter(inner, ")", rest);
    ListResolves(reg, labels);
    assert s[1..] == inner + ")" + rest;
  }

  lemma ClauseParses(reg: Registry, without: bool, labels: seq<string>, rest: string)
    requires PlainLabels(labels)
    ensures var s := PrintClause(if without then "without" else "by", labels) + rest;
      StartsGrouping(s) && GroupingClause(reg, s) == WithRest(ResolveFrom(reg, [], labels), without, rest)
  {
    hide ResolveFrom, LabelList, Join, PlainLabels;
    var word := if without then "without" else "by";
    var list := "(" + Join(labels, ",") + ")" + rest;
    var s := PrintClause(word, labels) + rest;
    assert s == word + (" " + list);
    WordStarts(word, " " + list);
    ListParses(reg, labels, rest);
    assert (" " + list)[1..] == list;
    assert TrimStart(" " + list) == TrimStart(list) == list;
  }

  lemma WordStarts(word: string, rest: string)
    requires word == "by" || word == "without"
    ensures word <= word + rest && (word + rest)[|word|..] == rest
    ensures word == "by" ==> !("without" <= word + rest)
    ensures word == "without" ==> !("by" <= word + rest)
  {
    var s := word + rest;
    assert s[..|word|] == word;
    assert s[0] == word[0];
  }

  // ----- Grouped aggregations -----

  function AggregationMeaning(reg: Registry, agg: Aggregation, without: bool, labels: seq<string>,
                              operand: string): ParseResult<Option<AggregationExpr>> {
    match ResolveFrom(reg, [], labels)
    case Err(reason) => Err(reason)
    case Ok(names) => Ok(Some(AggregationExpr(agg, GroupBy(reg, without, names), true, operand)))
  }

  function Word(without: bool): string {
    if without then "without" else "by"
  }

  lemma BeforeParses(reg: Registry, agg: Aggregation, without: bool, labels: seq<string>, operand: string)
    requires agg != Rate && PlainLabels(labels) && IsOperand(operand)
    ensures AggregationOf(reg, PrintGrouped(agg, PrintClause(Word(without), labels), BeforeOperand, operand)) ==
      AggregationMeaning(reg, agg, without, labels, operand)
  {
    hide AggregationOf, ResolveFrom, GroupingClause, StartsGrouping, Parenthesized, KeywordText, PrintClause, Trim,
      GroupBy, IsOperand, PlainLabels;
    var clause, tail := PrintClause(Word(without), labels), " (" + operand + ")";
    var rest := clause + tail;
    assert PrintGrouped(agg, clause, BeforeOperand, operand) == KeywordText(agg) + (" " + rest);
    KeywordSplits(reg, agg, " " + rest);
    ClauseTrimmed(without, labels, tail);
    ClauseParses(reg, without, labels, tail);
    assert TrimStart(tail) == "(" + operand + ")" by { SpaceTrimmed(operand); }
    OperandCut(operand, []);
    assert "(" + operand + ")" == "(" + operand + ")" + [];
  }

  lemma SpaceTrimmed(operand: string)
    ensures TrimStart(" (" + operand + ")") == "(" + operand + ")"
  {
    assert (" (" + operand + ")")[1..] == "(" + operand + ")";
  }

  lemma ClauseTrimmed(without: bool, labels: seq<string>, tail: string)
    ensures TrimStart(" " + (PrintClause(Word(without), labels) + tail)) == PrintClause(Word(without), labels) + tail
  {
    hide Join;
    var s := PrintClause(Word(without), labels) + tail;
    assert (" " + s)[1..] == s && s[0] == Word(without)[0];
    assert TrimStart(" " + s) == TrimStart(s);
  }

  lemma OperandCut(operand: string, suffix: string)
    requires IsOperand(operand)
    ensures Parenthesized("(" + operand + ")" + suffix) == Some((operand, Trim(suffix)))
  {
    CutAtPartner(operand, suffix);
    StandingStays(operand);
  }

  lemma AfterParses(reg: Registry, agg: Aggregation, without: bool, labels: seq<string>, operand: string)
    requires agg != Rate && PlainLabels(labels) && IsOperand(operand)
    ensures AggregationOf(reg, PrintGrouped(agg, PrintClause(Word(without), labels), AfterOperand, operand)) ==
      AggregationMeaning(reg, agg, without, labels, operand)
  {
    hide AggregationOf, ResolveFrom, GroupingClause, StartsGrouping, Parenthesized, KeywordText, PrintClause, Trim,
      GroupBy, IsOperand, PlainLabels;
    var clause := PrintClause(Word(without), labels);
    var rest := "(" + operand + ")" + (" " + clause);
    assert PrintGrouped(agg, clause, AfterOperand, operand) == KeywordText(agg) + rest;
    KeywordSplits(reg, agg, rest);
    assert TrimStart(rest) == rest;
    assert !StartsGrouping(rest) by { NoGroupingYet(rest); }
    OperandCut(operand, " " + clause);
    ClauseTrimmed(without, labels, []);
    assert clause + [] == clause;
    ClauseTrimmedBothWays(without, labels);
    ClauseParses(reg, without, labels, []);
    TrimIdentity([]);
  }

  lemma NoGroupingYet(rest: string)
    requires rest != [] && rest[0] == '('
    ensures !StartsGrouping(rest)
  {
  }

  lemma ClauseTrimmedBothWays(without: bool, labels: seq<string>)
    ensures Trim(" " + PrintClause(Word(without), labels)) == PrintClause(Word(without), labels)
    ensures TrimStart(PrintClause(Word(without), labels)) == PrintClause(Word(without), labels)
  {
    hide Join;
    var s := PrintClause(Word(without), labels);
    assert s[0] == Word(without)[0] && s[|s| - 1] == ')';
    TrimPadded(" ", s, []);
    assert " " + s + [] == " " + s;
  }

  lemma GroupedParses(reg: Registry, agg: Aggregation, without: bool, labels: seq<string>, placement: Placement,
                      operand: string)
    requires agg != Rate && PlainLabels(labels) && IsOperand(operand)
    ensures AggregationOf(reg, PrintGrouped(agg, PrintClause(Word(without), labels), placement, operand)) ==
      AggregationMeaning(reg, agg, without, labels, operand)
  {
    match placement
    case BeforeOperand => BeforeParses(reg, agg, without, labels, operand);
    case AfterOperand => AfterParses(reg, agg, without, labels, operand);
  }

  lemma ClauseBalanced(without: bool, labels: seq<string>)
    requires PlainLabels(labels)
    ensures Balanced(" " + PrintClause(Word(without), labels))
  {
    var list, start := "(" + Join(labels, ",") + ")", " " + Word(without) + " ";
    JoinedNoParens(labels);
    hide Balanced, Join, PlainLabels;
    NoParensIsBalanced(Join(labels, ","));
    BalancedWrapped(Join(labels, ","));
    NoParensIsBalanced(start);
    BalancedConcat(start, list);
    assert " " + PrintClause(Word(without), labels) == start + list;
  }

  lemma GroupedBalanced(agg: Aggregation, without: bool, labels: seq<string>, placement: Placement, operand: string)
    requires PlainLabels(labels) && Balanced(operand)
    ensures Balanced(PrintGrouped(agg, PrintClause(Word(without), labels), placement, operand))
  {
    hide Balanced, PlainLabels, KeywordText, PrintClause, Word;
    var kw, after, clause := KeywordText(agg), "(" + operand + ")", PrintClause(Word(without), labels);
    KeywordIsPlain(agg);
    IdentIsPlain(kw);
    ClauseBalanced(without, labels);
    BalancedWrapped(operand);
    NoParensIsBalanced(kw);
    if placement == BeforeOperand {
      NoParensIsBalanced(" ");
      BalancedConcat(kw, " " + clause);
      BalancedConcat(kw + (" " + clause), " ");
      BalancedConcat(kw + (" " + clause) + " ", after);
      assert PrintGrouped(agg, clause, placement, operand) == kw + (" " + clause) + " " + after;
    } else {
      BalancedConcat(kw, after);
      BalancedConcat(kw + after, " " + clause);
      assert PrintGrouped(agg, clause, placement, operand) == kw + after + (" " + clause);
    }
  }

  lemma GroupedStands(agg: Aggregation, without: bool, labels: seq<string>, placement: Placement, operand: string)
    ensures Standing(PrintGrouped(agg, PrintClause(Word(without), labels), placement, operand))
  {
    hide Join;
    var s := PrintGrouped(agg, PrintClause(Word(without), labels), placement, operand);
    assert s[0] == KeywordText(agg)[0] && s[|s| - 1] == ')';
  }

  // ----- The whole query -----

  lemma RegroupDistinct(reg: Registry, labels: seq<string>)
    requires forall l | l in labels :: DefOf(reg, Metrics, l).Some?
    ensures Regroup(reg, labels) == Ok(labels)
  {
    if labels != [] {
      assert labels[0] in labels && forall l | l in labels[1..] :: l in labels;
      RegroupDistinct(reg, labels[1..]);
      assert labels == [labels[0]] + labels[1..];
    }
  }

  lemma {:induction false} ResolvedAreDefs(reg: Registry, names: seq<string>, labels: seq<string>)
    requires forall l | l in names :: DefOf(reg, Metrics, l).Some?
    ensures var r := ResolveFrom(reg, names, labels); r.Ok? ==> forall l | l in r.value :: DefOf(reg, Metrics, l).Some?
    decreases |labels|
  {
    if labels != [] {
      var name := CanonicalForAlias(reg, Metrics, Trim(labels[0]));
      if Trim(labels[0]) == [] {
        ResolvedAreDefs(reg, names, labels[1..]);
      } else if name.Some? {
        AliasedHasDef(reg, Metrics, Trim(labels[0]));
        ResolvedAreDefs(reg, if name.value in names then names else names + [name.value], labels[1..]);
      }
    }
  }

  lemma {:induction false} ExcludingIs(names: seq<string>, removed: seq<string>, l: string)
    ensures l in Excluding(names, removed) <==> l in names && l !in removed
  {
    if names != [] {
      ExcludingIs(names[1..], removed, l);
    }
  }

  lemma GroupsAreDefs(reg: Registry, g: Grouping)
    ensures GroupsMeant(reg, g).Ok? ==> forall l | l in GroupsMeant(reg, g).value :: DefOf(reg, Metrics, l).Some?
  {
    if g != Ungrouped {
      ResolvedAreDefs(reg, [], g.labels);
    }
    if g.Without? && GroupsMeant(reg, g).Ok? {
      forall l | l in GroupsMeant(reg, g).value ensures DefOf(reg, Metrics, l).Some? {
        ExcludingIs(ScopeLabels(reg, Metrics), ResolveFrom(reg, [], g.labels).value, l);
        ScopeLabelsAreDefs(reg, Metrics, l);
      }
    }
  }

  /** Resolving the groups a second time changes nothing. */
  lemma AssembledIsSelected(reg: Registry, g: Grouping, agg: Aggregation, explicit: bool, name: string,
                            ms: seq<FieldMatcher>)
    requires GroupsMeant(reg, g).Ok?
    ensures Assemble(reg, agg, GroupsMeant(reg, g).value, explicit, name, ms) ==
      Selected(reg, agg, GroupsMeant(reg, g).value, explicit, name, ms)
  {
    hide GroupsMeant, Normalized, NameAndFilters, ResolveMetricName, IsSumSignal, NameMeant, SumMeant;
    var named := NameAndFilters(name, ms);
    if named.Ok? {
      NameIsMeant(named.value.0);
      SignalIsMeant(named.value.0, agg);
    }
    GroupsAreDefs(reg, g);
    RegroupDistinct(reg, GroupsMeant(reg, g).value);
  }

  /** The operand of an aggregation, with its inner function if it has one. */
  lemma OperandMeaning(reg: Registry, e: PromExpr, agg: Aggregation)
    requires PlainMetric(e.metric) && GroupsMeant(reg, e.grouping).Ok?
    ensures Standing(PrintOperand(e))
    ensures var groups, explicit := GroupsMeant(reg, e.grouping).value, e.grouping != Ungrouped;
      WithInner(reg, agg, groups, explicit, PrintOperand(e)) ==
      Selected(reg, if e.func.Some? then e.func.value else agg, groups, explicit, e.metric.name, Matchers(e.metric))
  {
    hide PlainMetric, PrintMetric, Standing, Finish, Assemble, Selected, GroupsMeant, UnwrapFunc, Call, KeywordText,
      AggregationKeyword, Stripped;
    var m, groups, explicit := e.metric, GroupsMeant(reg, e.grouping).value, e.grouping != Ungrouped;
    var own := if e.func.Some? then e.func.value else agg;
    MetricStands(m);
    StandingStays(PrintMetric(m));
    MetricFinishes(reg, own, groups, explicit, m);
    AssembledIsSelected(reg, e.grouping, own, explicit, m.name, Matchers(m));
    if e.func.Some? {
      CallStands(own, PrintMetric(m));
      CallUnwraps(own, PrintMetric(m));
      KeywordIsPlain(own);
    } else {
      MetricIsNoCall(m);
    }
  }

  lemma PrintStands(e: PromExpr)
    requires Formed(e)
    ensures Standing(PrintOperand(e)) && Standing(Print(e))
  {
    hide PlainMetric, PrintMetric, Standing, Call, PrintGrouped, PrintClause, PlainLabels;
    MetricStands(e.metric);
    if e.func.Some? {
      CallStands(e.func.value, PrintMetric(e.metric));
    }
    if e.outer.Some? {
      match e.grouping
      case Ungrouped => CallStands(e.outer.value, PrintOperand(e));
      case By(labels) => GroupedStands(e.outer.value, false, labels, e.placement, PrintOperand(e));
      case Without(labels) => GroupedStands(e.outer.value, true, labels, e.placement, PrintOperand(e));
    }
  }

  /** An aggregation of a balanced operand is balanced. */
  lemma CountedBalances(e: PromExpr)
    requires Formed(e) && Counted(e).Some? && Balanced(Counted(e).value)
    ensures Balanced(Print(e))
  {
    hide PlainMetric, PrintMetric, PrintOperand, Balanced, Call, PrintGrouped, PrintClause, PlainLabels;
    if e.outer.Some? {
      match e.grouping
      case Ungrouped => CallBalanced(e.outer.value, PrintOperand(e));
      case By(labels) => GroupedBalanced(e.outer.value, false, labels, e.placement, PrintOperand(e));
      case Without(labels) => GroupedBalanced(e.outer.value, true, labels, e.placement, PrintOperand(e));
    } else {
      CallBalanced(e.func.value, PrintMetric(e.metric));
      OperandIsCall(e);
    }
  }

  lemma OperandIsCall(e: PromExpr)
    requires e.func.Some?
    ensures PrintOperand(e) == Call(e.func.value, PrintMetric(e.metric))
  {
  }

  /** The outermost step of parsing: the aggregation is recognised with its grouping. */
  lemma OuterParses(reg: Registry, e: PromExpr)
    requires Supported(e) && e.outer.Some?
    ensures AggregationOf(reg, Print(e)) ==
      match GroupsMeant(reg, e.grouping)
      case Err(reason) => Err(reason)
      case Ok(groups) => Ok(Some(AggregationExpr(e.outer.value, groups, e.grouping != Ungrouped, PrintOperand(e))))
  {
    hide PlainMetric, PrintMetric, Balanced, Standing, Call, PrintGrouped, PrintClause, PlainLabels, AggregationKeyword,
      AggregationOf, ResolveFrom, PrintOperand;
    PrintStands(e);
    match e.grouping
    case Ungrouped => CallAggregates(reg, e.outer.value, PrintOperand(e));
    case By(labels) => GroupedParses(reg, e.outer.value, false, labels, e.placement, PrintOperand(e));
    case Without(labels) => GroupedParses(reg, e.outer.value, true, labels, e.placement, PrintOperand(e));
  }

  lemma OuterMeaning(reg: Registry, e: PromExpr)
    requires Supported(e) && e.outer.Some?
    ensures PromQueryOf(reg, Print(e)) == Meaning(reg, e)
  {
    hide PlainMetric, Balanced, Standing, PrintOperand, Print, Stripped, Trim, AggregationOf, GroupsMeant, Selected,
      WithInner, UnwrapFunc, AggregationKeyword, PlainLabels;
    PrintStands(e);
    StandingStays(Print(e));
    StandingStays(PrintOperand(e));
    OuterParses(reg, e);
    if GroupsMeant(reg, e.grouping).Ok? {
      OperandMeaning(reg, e, e.outer.value);
    }
  }

  lemma InnerMeaning(reg: Registry, e: PromExpr)
    requires Supported(e) && e.outer.None?
    ensures PromQueryOf(reg, Print(e)) == Meaning(reg, e)
  {
    hide PlainMetric, Balanced, Standing, PrintMetric, Stripped, Trim, AggregationOf, Selected, WithInner, UnwrapFunc,
      AggregationKeyword, PlainLabels, Call, KeywordText;
    var m := e.metric;
    PrintStands(e);
    StandingStays(Print(e));
    MetricStands(m);
    StandingStays(PrintMetric(m));
    OperandMeaning(reg, e.(func := None), AggregationMeant(e));
    match e.func
    case None =>
      MetricIsNoAggregation(reg, m);
      MetricIsNoCall(m);
    case Some(own) =>
      if own == Rate {
        RateIsNoAggregation(reg, PrintMetric(m));
      } else {
        CallAggregates(reg, own, PrintMetric(m));
      }
      CallUnwraps(own, PrintMetric(m));
      KeywordIsPlain(own);
  }

  /**
   Every query of the supported subset, printed with its grouping before or after the operand
   and with any number of parentheses around it, is parsed to its meaning.
   */
  lemma PrintedMeans(reg: Registry, e: PromExpr, layers: nat)
    requires Readable(e, layers)
    ensures PromQueryOf(reg, Wrapped(layers, Print(e))) == Meaning(reg, e)
  {
    hide Supported, Meaning, Balanced, Print, Wrapped, Stripped, Trim;
    if layers > 0 {
      WrappingIsRedundant(layers, Print(e));
      SameStripped(reg, Wrapped(layers, Print(e)), Print(e));
    } else {
      assert Wrapped(layers, Print(e)) == Print(e) by { NoLayers(Print(e)); }
    }
    if e.outer.Some? { OuterMeaning(reg, e); } else { InnerMeaning(reg, e); }
  }

  lemma NoLayers(s: string)
    ensures Wrapped(0, s) == s
  {
  }

  /** Only the stripped text matters. */
  lemma SameStripped(reg: Registry, a: string, b: string)
    requires Stripped(a) == Stripped(b)
    ensures PromQueryOf(reg, a) == PromQueryOf(reg, b)
  {
    TrimIdentity(Trim(a));
    TrimIdentity(Trim(b));
    hide Trim, StripFrom, AggregationOf, UnwrapFunc, WithInner, AggregationKeyword;
  }
}
