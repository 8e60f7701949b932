/**
 What the statements of a discovery question ask for (`src/metadata.rs:48-290`, `427-585`):
 their conditions, read back from the text and evaluated, against the question itself.
 */
module DiscoveryMeaning {
  import opened BasicTypes
  import opened Text
  import opened SqlText
  import opened SqlCondition
  import opened SqlMeaning
  import opened SqlPrefix
  import opened DiscoveryQueries
  import L = Labels

  // ----- What a question asks for -----

  function Column(row: Row, name: string): Option<string> {
    row.labels([Word(name)])
  }

  ghost predicate Has(row: Row, column: string, value: string) {
    Column(row, column) == Some(value)
  }

  ghost predicate HasOneOf(row: Row, column: string, values: set<string>) {
    Column(row, column).Some? && Column(row, column).value in values
  }

  /** A summary was first seen before the end and last seen at or after the start, as they are written. */
  ghost predicate SeenWithin(db: Database, row: Row, from: Time, to: Time) {
    && row.times("first_seen") < db.timestamp(to.SqlText())
    && row.times("last_seen") >= db.timestamp(from.SqlText())
  }

  /** The summary rows a question is about. */
  ghost predicate Asked(db: Database, row: Row, q: Question) {
    match q
    case PrometheusLabelValues(name, from, to) =>
      && Has(row, "kind", "label_value") && HasOneOf(row, "signal", {"otlp_metrics_gauge", "otlp_metrics_sum"})
      && Has(row, "name", name) && Column(row, "value").Some? && SeenWithin(db, row, from, to)
    case PrometheusSeries(from, to) =>
      && Has(row, "kind", "series") && HasOneOf(row, "signal", {"otlp_metrics_gauge", "otlp_metrics_sum"})
      && SeenWithin(db, row, from, to)
    case PrometheusMetricMetadata =>
      Has(row, "kind", "metric_metadata") && HasOneOf(row, "signal", {"otlp_metrics_gauge", "otlp_metrics_sum"})
    case LokiLabelValues(name, from, to) =>
      && Has(row, "kind", "label_value") && Has(row, "signal", "otlp_logs")
      && Has(row, "name", name) && Column(row, "value").Some? && SeenWithin(db, row, from, to)
    case LokiSeries(from, to) =>
      Has(row, "kind", "series") && Has(row, "signal", "otlp_logs") && SeenWithin(db, row, from, to)
    case TempoTagValues(name, from, to) =>
      && Has(row, "kind", "tag_value") && Has(row, "signal", "otlp_traces")
      && Has(row, "name", name) && Column(row, "value").Some? && SeenWithin(db, row, from, to)
  }

  /** For a span of time and a summary that are not empty, that is the span meeting the summary's own. */
  lemma SeenWithinIsOverlap(db: Database, row: Row, from: Time, to: Time)
    requires row.times("first_seen") <= row.times("last_seen")
    requires db.timestamp(from.SqlText()) < db.timestamp(to.SqlText())
    ensures SeenWithin(db, row, from, to) <==>
      exists t :: InBoth(t, row.times("first_seen"), row.times("last_seen"), db.timestamp(from.SqlText()),
                         db.timestamp(to.SqlText()))
  {
    if SeenWithin(db, row, from, to) {
      var first, start := row.times("first_seen"), db.timestamp(from.SqlText());
      var t := if first <= start then start else first;
      assert InBoth(t, first, row.times("last_seen"), start, db.timestamp(to.SqlText()));
    }
  }

  predicate InBoth(t: int, first: int, last: int, start: int, end: int) {
    first <= t <= last && start <= t < end
  }

  // ----- Conditions on one column -----

  lemma ColumnIsMeans(column: string, value: string)
    requires IsColumn(column)
    ensures Means(column + " = " + Quote(value), Compare(Equal, [Word(column)], [Literal(value)]))
  {
    hide Lex, Quote, ReadsAs;
    var tail := " = " + Quote(value);
    EqualsLexes(value);
    WordLexes(column, tail);
    assert column + tail == column + " = " + Quote(value);
    ColumnCompareReads(column, Equal, [Literal(value)]);
    assert [Word(column)] + [Symbol('='), Literal(value)] == [Word(column)] + OpTokens(Equal) + [Literal(value)];
  }

  lemma NotNullMeans(column: string)
    requires IsColumn(column)
    ensures Means(column + " IS NOT NULL", NotNull([Word(column)]))
  {
    var ts := [Word(column), Word("IS"), Word("NOT"), Word("NULL")];
    assert Lex(column + " IS NOT NULL") == Some(ts) by { NotNullLexes(column); }
    forall rest | EndsUnit(rest) ensures ParseNot(ts + rest) == Some((NotNull([Word(column)]), rest)) {
      hide ParseNot, ParseOperand;
      var more := [Word("IS"), Word("NOT"), Word("NULL")] + rest;
      assert ts + rest == [Word(column)] + more && more[3..] == rest;
      assert more[..3] == [Word("IS"), Word("NOT"), Word("NULL")];
      ColumnParses(column, more);
      CompareIsUnit(ts + rest);
    }
    hide Lex, ParseNot;
  }

  lemma NotNullTexts()
    ensures " " + "NULL" == " NULL" && "NOT" + " NULL" == "NOT NULL" && " " + "NOT NULL" == " NOT NULL"
    ensures "IS" + " NOT NULL" == "IS NOT NULL" && " " + "IS NOT NULL" == " IS NOT NULL"
  {
  }

  lemma NotNullLexes(column: string)
    requires IsColumn(column)
    ensures Lex(column + " IS NOT NULL") == Some([Word(column), Word("IS"), Word("NOT"), Word("NULL")])
  {
    hide Lex;
    WordAloneLexes("NULL");
    SpaceLexes("NULL");
    WordLexes("NOT", " NULL");
    SpaceLexes("NOT NULL");
    WordLexes("IS", " NOT NULL");
    SpaceLexes("IS NOT NULL");
    WordLexes(column, " IS NOT NULL");
    NotNullTexts();
    assert [Word(column)] + ([Word("IS")] + ([Word("NOT")] + [Word("NULL")])) ==
      [Word(column), Word("IS"), Word("NOT"), Word("NULL")];
  }

  lemma NotEmptyParses(column: string, rest: seq<Token>)
    requires IsColumn(column) && EndsUnit(rest)
    ensures ParseNot([Word(column), Symbol('<'), Symbol('>'), Literal("")] + rest) ==
      Some((Compare(NotEqual, [Word(column)], [Literal("")]), rest))
  {
    hide ParseNot, ParseOperand;
    var ts := [Word(column), Symbol('<'), Symbol('>'), Literal("")];
    var more, end := [Symbol('<'), Symbol('>'), Literal("")] + rest, [Literal("")] + rest;
    assert ts + rest == [Word(column)] + more && more[2..] == end;
    assert more[..2] == [Symbol('<'), Symbol('>')] && more[0] == Symbol('<');
    ColumnParses(column, more);
    LiteralParses([Literal("")], rest);
    CompareIsUnit(ts + rest);
  }

  /** A literal that differs from the empty text. */
  lemma NotEmptyMeans(column: string)
    requires IsColumn(column)
    ensures Means(column + " <> ''", Compare(NotEqual, [Word(column)], [Literal("")]))
  {
    hide Lex, ParseNot;
    NotEmptyLexes(column);
    forall rest | EndsUnit(rest)
      ensures ParseNot([Word(column), Symbol('<'), Symbol('>'), Literal("")] + rest) ==
        Some((Compare(NotEqual, [Word(column)], [Literal("")]), rest))
    {
      NotEmptyParses(column, rest);
    }
  }

  lemma NotEmptyLexes(column: string)
    requires IsColumn(column)
    ensures Lex(column + " <> ''") == Some([Word(column), Symbol('<'), Symbol('>'), Literal("")])
  {
    hide Lex;
    LoneQuoteLexes("");
    SpaceLexes(Quote(""));
    SymbolLexes('>', " " + Quote(""));
    SymbolLexes('<', ['>'] + (" " + Quote("")));
    SpaceLexes(['<'] + (['>'] + (" " + Quote(""))));
    var tail := " <> ''";
    assert Quote("") == "''";
    assert " " + (['<'] + (['>'] + (" " + Quote("")))) == tail;
    WordLexes(column, tail);
    assert [Word(column)] + ([Symbol('<')] + ([Symbol('>')] + [Literal("")])) ==
      [Word(column), Symbol('<'), Symbol('>'), Literal("")];
  }

  // ----- Lists of literals -----

  function ListTokens(values: seq<string>): seq<Token> {
    if values == [] then []
    else if |values| == 1 then [Literal(values[0])]
    else [Literal(values[0]), Symbol(',')] + ListTokens(values[1..])
  }

  lemma {:induction false} ListLexes(values: seq<string>)
    requires values != []
    ensures Lex(SignalInList(values) + ")") == Some(ListTokens(values) + [Symbol(')')])
    decreases |values|
  {
    hide Lex, Quote;
    if |values| == 1 {
      EmptyLexes();
      SymbolLexes(')', "");
      assert [')'] + "" == ")";
      QuoteLexes(values[0], ")");
      OneInList(values);
      assert [Literal(values[0])] + ([Symbol(')')] + []) == ListTokens(values) + [Symbol(')')];
    } else {
      var later := SignalInList(values[1..]) + ")";
      ListLexes(values[1..]);
      SpaceLexes(later);
      SymbolLexes(',', " " + later);
      QuoteLexes(values[0], [','] + (" " + later));
      MoreInList(values);
      assert Quote(values[0]) + ([','] + (" " + later)) == SignalInList(values) + ")";
      assert [Literal(values[0])] + ([Symbol(',')] + (ListTokens(values[1..]) + [Symbol(')')])) ==
        ListTokens(values) + [Symbol(')')];
    }
  }

  lemma OneInList(values: seq<string>)
    requires |values| == 1
    ensures SignalInList(values) == Quote(values[0])
  {
    hide Quote;
  }

  lemma MoreInList(values: seq<string>)
    requires |values| > 1
    ensures SignalInList(values) == Quote(values[0]) + ", " + SignalInList(values[1..])
  {
    hide Quote;
    var quoted := seq(|values|, i requires 0 <= i < |values| => Quote(values[i]));
    var later := seq(|values| - 1, i requires 0 <= i < |values| - 1 => Quote(values[1..][i]));
    assert quoted[1..] == later;
  }

  lemma {:induction false} ListParses(values: seq<string>, rest: seq<Token>)
    requires values != []
    ensures ParseLiterals(ListTokens(values) + [Symbol(')')] + rest) == Some((values, rest))
    decreases |values|
  {
    var ts := ListTokens(values) + [Symbol(')')] + rest;
    if |values| == 1 {
      assert ts[2..] == rest && [values[0]] == values;
    } else {
      var later := ListTokens(values[1..]) + [Symbol(')')] + rest;
      ListParses(values[1..], rest);
      assert ts == [Literal(values[0]), Symbol(',')] + later;
      hide ListTokens, ParseLiterals;
      OneMoreLiteral(values[0], later);
      assert [values[0]] + values[1..] == values;
    }
  }

  lemma OneMoreLiteral(value: string, later: seq<Token>)
    requires ParseLiterals(later).Some?
    ensures ParseLiterals([Literal(value), Symbol(',')] + later) ==
      Some(([value] + ParseLiterals(later).value.0, ParseLiterals(later).value.1))
  {
    assert ([Literal(value), Symbol(',')] + later)[2..] == later;
  }

  lemma {:induction false} ListNoBraces(values: seq<string>)
    ensures NoBraces(ListTokens(values))
  {
    if |values| > 1 {
      ListNoBraces(values[1..]);
    }
  }

  lemma OneOfMeans(column: string, values: seq<string>)
    requires IsColumn(column) && values != []
    ensures Means(column + " IN (" + SignalInList(values) + ")", OneOf([Word(column)], values))
  {
    hide Lex, ParseNot, ListTokens, SignalInList;
    var list := ListTokens(values) + [Symbol(')')];
    var ts := [Word(column), Word("IN"), Symbol('(')] + list;
    ListNoBraces(values);
    assert Lex(column + " IN (" + SignalInList(values) + ")") == Some(ts) by { OneOfLexes(column, values); }
    forall rest | EndsUnit(rest) ensures ParseNot(ts + rest) == Some((OneOf([Word(column)], values), rest)) {
      OneOfParses(column, values, rest);
      assert ts + rest == [Word(column)] + ([Word("IN"), Symbol('(')] + (list + rest));
    }
  }

  lemma OneOfParses(column: string, values: seq<string>, rest: seq<Token>)
    requires IsColumn(column) && values != []
    ensures var list := ListTokens(values) + [Symbol(')')] + rest;
      ParseNot([Word(column)] + ([Word("IN"), Symbol('(')] + list)) == Some((OneOf([Word(column)], values), rest))
  {
    hide ParseNot, ParseOperand, ListTokens, ParseLiterals;
    var list := ListTokens(values) + [Symbol(')')] + rest;
    var more := [Word("IN"), Symbol('(')] + list;
    assert more[2..] == list && more[..2] == [Word("IN"), Symbol('(')] && more[0] == Word("IN");
    ListParses(values, rest);
    ColumnParses(column, more);
    CompareIsUnit([Word(column)] + more);
  }

  lemma OneOfLexes(column: string, values: seq<string>)
    requires IsColumn(column) && values != []
    ensures Lex(column + " IN (" + SignalInList(values) + ")") ==
      Some([Word(column), Word("IN"), Symbol('(')] + (ListTokens(values) + [Symbol(')')]))
  {
    hide Lex, SignalInList, ListTokens;
    var list := SignalInList(values) + ")";
    ListLexes(values);
    SymbolLexes('(', list);
    SpaceLexes(['('] + list);
    WordLexes("IN", " " + (['('] + list));
    SpaceLexes("IN" + (" " + (['('] + list)));
    WordLexes(column, " " + ("IN" + (" " + (['('] + list))));
    assert column + (" " + ("IN" + (" " + (['('] + list)))) == column + " IN (" + SignalInList(values) + ")";
    var ts := ListTokens(values) + [Symbol(')')];
    assert [Word(column)] + ([Word("IN")] + ([Symbol('(')] + ts)) == [Word(column), Word("IN"), Symbol('(')] + ts;
  }

  // ----- Whole conditions -----

  ghost function SeenConds(from: Time, to: Time): seq<Cond> {
    [TimeCond("first_seen", Less, to.SqlText()), TimeCond("last_seen", AtLeast, from.SqlText())]
  }

  function SeenTexts(from: Time, to: Time): seq<string> {
    [TimeTo("first_seen", to.SqlText()), TimeFrom("last_seen", from.SqlText())]
  }

  lemma SeenMeans(from: Time, to: Time)
    ensures AllMean(SeenTexts(from, to), SeenConds(from, to))
    ensures MetadataTimePredicate(from, to) == Join(SeenTexts(from, to), " AND ")
  {
    hide Means, Quote, TimeCond;
    assert IsColumn("first_seen") && IsColumn("last_seen");
    TimeToMeans("first_seen", to.SqlText());
    TimeFromMeans("last_seen", from.SqlText());
    JoinTwo(TimeTo("first_seen", to.SqlText()), TimeFrom("last_seen", from.SqlText()));
    SeenText(to.SqlText(), from.SqlText());
  }

  lemma JoinTwo(a: string, b: string)
    ensures Join([a, b], " AND ") == a + " AND " + b
  {
    assert [a, b][1..] == [b];
  }

  lemma SeenText(to: string, from: string)
    ensures "first_seen < TIMESTAMP " + Quote(to) + " AND last_seen >= TIMESTAMP " + Quote(from) ==
      TimeTo("first_seen", to) + " AND " + TimeFrom("last_seen", from)
  {
    hide Quote;
    assert "first_seen" + " < TIMESTAMP " == "first_seen < TIMESTAMP ";
    assert "last_seen" + " >= TIMESTAMP " == "last_seen >= TIMESTAMP ";
    assert " AND " + "last_seen >= TIMESTAMP " == " AND last_seen >= TIMESTAMP ";
  }

  lemma SeenPasses(db: Database, row: Row, from: Time, to: Time)
    ensures SeenWithin(db, row, from, to) <==>
      Passes(db, row, SeenConds(from, to)[0]) && Passes(db, row, SeenConds(from, to)[1])
  {
  }

  lemma ColumnPasses(db: Database, row: Row, column: string, value: string)
    requires column != "body"
    ensures Passes(db, row, Compare(Equal, [Word(column)], [Literal(value)])) <==> Has(row, column, value)
  {
  }

  lemma OneOfPasses(db: Database, row: Row, column: string, values: seq<string>)
    requires column != "body"
    ensures Passes(db, row, OneOf([Word(column)], values)) <==>
      Column(row, column).Some? && Column(row, column).value in values
  {
  }

  lemma NotNullPasses(db: Database, row: Row, column: string)
    requires column != "body"
    ensures Passes(db, row, NotNull([Word(column)])) <==> Column(row, column).Some?
  {
  }

  /** Clauses joined by AND, read as one condition. */
  lemma JoinedPasses(db: Database, row: Row, texts: seq<string>, cs: seq<Cond>)
    requires AllMean(texts, cs) && cs != []
    ensures var c := Condition(Join(texts, " AND "));
      c.Some? && (Passes(db, row, c.value) <==> forall c | c in cs :: Passes(db, row, c))
  {
    JoinedMeans(texts, cs);
    PassesAll(db, row, cs);
    hide Condition, Passes, AndAll, Means;
    assert forall i | 0 <= i < |cs| :: cs[i] in cs;
  }

  lemma BothPass(db: Database, row: Row, a: seq<string>, ca: seq<Cond>, b: seq<string>, cb: seq<Cond>)
    requires AllMean(a, ca) && AllMean(b, cb) && ca != []
    ensures var c := Condition(Join(a + b, " AND "));
      c.Some? && (Passes(db, row, c.value) <==>
        (forall c | c in ca :: Passes(db, row, c)) && (forall c | c in cb :: Passes(db, row, c)))
  {
    hide Means, Condition, Passes, Join;
    JoinedPasses(db, row, a + b, ca + cb);
    assert forall c :: c in ca + cb <==> c in ca || c in cb;
  }

  /** The clauses of a summary's condition: its kind and signals, and for values the name. */
  function SummaryTexts(kind: string, signals: seq<string>, name: Option<string>): seq<string> {
    ["kind = " + Quote(kind), "signal IN (" + SignalInList(signals) + ")"]
    + if name.Some? then ["name = " + Quote(name.value), "value IS NOT NULL"] else []
  }

  ghost function SummaryConds(kind: string, signals: seq<string>, name: Option<string>): seq<Cond> {
    [Compare(Equal, [Word("kind")], [Literal(kind)]), OneOf([Word("signal")], signals)]
    + if name.Some? then [Compare(Equal, [Word("name")], [Literal(name.value)]), NotNull([Word("value")])] else []
  }

  lemma SummaryMeans(kind: string, signals: seq<string>, name: Option<string>)
    requires signals != []
    ensures AllMean(SummaryTexts(kind, signals, name), SummaryConds(kind, signals, name))
  {
    hide Means, Quote, SignalInList;
    assert IsColumn("kind") && IsColumn("signal") && IsColumn("name") && IsColumn("value");
    ColumnIsMeans("kind", kind);
    OneOfMeans("signal", signals);
    SummaryStarts(kind, signals);
    if name.Some? {
      ColumnIsMeans("name", name.value);
      NotNullMeans("value");
      NameStarts(name.value);
    }
  }

  lemma SummaryStarts(kind: string, signals: seq<string>)
    ensures "kind" + " = " + Quote(kind) == "kind = " + Quote(kind)
    ensures "signal" + " IN (" + SignalInList(signals) + ")" == "signal IN (" + SignalInList(signals) + ")"
  {
    hide Quote, SignalInList;
    assert "kind" + " = " == "kind = " && "signal" + " IN (" == "signal IN (";
  }

  lemma NameStarts(name: string)
    ensures "name" + " = " + Quote(name) == "name = " + Quote(name)
    ensures "value" + " IS NOT NULL" == "value IS NOT NULL"
  {
    hide Quote;
    assert "name" + " = " == "name = ";
  }

  ghost predicate SummaryHolds(row: Row, kind: string, signals: seq<string>, name: Option<string>) {
    && Has(row, "kind", kind)
    && Column(row, "signal").Some? && Column(row, "signal").value in signals
    && (name.Some? ==> Has(row, "name", name.value) && Column(row, "value").Some?)
  }

  lemma SummaryPasses(db: Database, row: Row, kind: string, signals: seq<string>, name: Option<string>)
    ensures SummaryHolds(row, kind, signals, name) <==>
      forall c | c in SummaryConds(kind, signals, name) :: Passes(db, row, c)
  {
    ColumnPasses(db, row, "kind", kind);
    OneOfPasses(db, row, "signal", signals);
    hide Passes;
    if name.Some? {
      ColumnPasses(db, row, "name", name.value);
      NotNullPasses(db, row, "value");
    }
    var cs := SummaryConds(kind, signals, name);
    assert cs[0] in cs && cs[1] in cs;
    assert name.Some? ==> cs[2] in cs && cs[3] in cs;
  }

  /** A condition on summaries, with or without a span of time. */
  lemma SummaryCondition(db: Database, row: Row, kind: string, signals: seq<string>, name: Option<string>,
                         window: Option<(Time, Time)>)
    requires signals != []
    ensures var c := Condition(Join(SummaryTexts(kind, signals, name) + WindowTexts(window), " AND "));
      c.Some? && (Passes(db, row, c.value) <==>
        && SummaryHolds(row, kind, signals, name)
        && (window.Some? ==> SeenWithin(db, row, window.value.0, window.value.1)))
  {
    var texts, cs := SummaryTexts(kind, signals, name), SummaryConds(kind, signals, name);
    var more, mc := WindowTexts(window), WindowConds(window);
    SummaryMeans(kind, signals, name);
    SummaryPasses(db, row, kind, signals, name);
    if window.Some? {
      SeenMeans(window.value.0, window.value.1);
      SeenPasses(db, row, window.value.0, window.value.1);
      assert mc[0] in mc && mc[1] in mc;
    }
    assert cs != [];
    hide Means, Condition, Passes, SummaryTexts, SummaryConds, SummaryHolds, SeenWithin, SeenTexts, SeenConds, Join;
    BothPass(db, row, texts, cs, more, mc);
  }

  function WindowTexts(window: Option<(Time, Time)>): seq<string> {
    if window.Some? then SeenTexts(window.value.0, window.value.1) else []
  }

  ghost function WindowConds(window: Option<(Time, Time)>): seq<Cond> {
    if window.Some? then SeenConds(window.value.0, window.value.1) else []
  }

  // ----- The statements of each question -----

  lemma LabelValuesText(signals: seq<string>, kind: string, name: string, from: Time, to: Time)
    ensures LabelValuesWhere(signals, kind, name, from, to) ==
      Join(SummaryTexts(kind, signals, Some(name)) + WindowTexts(Some((from, to))), " AND ")
  {
    SeenMeans(from, to);
    hide Quote, SignalInList, TimeTo, TimeFrom, MetadataTimePredicate;
    var seen := SeenTexts(from, to);
    JoinFour("kind = " + Quote(kind), "signal IN (" + SignalInList(signals) + ")", "name = " + Quote(name),
             "value IS NOT NULL", seen);
    LabelValuesPieces(kind, SignalInList(signals), name, MetadataTimePredicate(from, to));
  }

  lemma LabelValuesPieces(kind: string, list: string, name: string, seen: string)
    ensures "kind = " + Quote(kind) + " AND signal IN (" + list + ") AND name = " + Quote(name)
        + " AND value IS NOT NULL AND " + seen ==
      "kind = " + Quote(kind) + " AND " + ("signal IN (" + list + ")" + " AND " + ("name = " + Quote(name) + " AND "
        + ("value IS NOT NULL" + " AND " + seen)))
  {
    var sep := " AND ";
    Regrouped("kind = ", Quote(kind), sep, "signal IN (", list, ")", "name = ", Quote(name), "value IS NOT NULL", seen);
    hide Quote;
    assert sep + "signal IN (" == " AND signal IN (" && ")" + sep + "name = " == ") AND name = ";
    assert sep + "value IS NOT NULL" + sep == " AND value IS NOT NULL AND ";
  }

  lemma Regrouped(a: string, b: string, sep: string, c: string, d: string, e: string, f: string, g: string,
                  h: string, i: string)
    ensures a + b + (sep + c) + d + (e + sep + f) + g + (sep + h + sep) + i ==
      a + b + sep + (c + d + e + sep + (f + g + sep + (h + sep + i)))
  {
  }

  lemma JoinNext(a: string, later: seq<string>)
    requires later != []
    ensures Join([a] + later, " AND ") == a + " AND " + Join(later, " AND ")
  {
    assert ([a] + later)[1..] == later;
  }

  lemma JoinFour(a: string, b: string, c: string, d: string, later: seq<string>)
    requires later != []
    ensures Join([a, b] + [c, d] + later, " AND ") ==
      a + " AND " + (b + " AND " + (c + " AND " + (d + " AND " + Join(later, " AND "))))
  {
    hide Join;
    JoinMore(c, d, later);
    JoinMore(a, b, [c, d] + later);
    assert [a, b] + [c, d] + later == [a, b] + ([c, d] + later);
  }

  lemma JoinMore(a: string, b: string, later: seq<string>)
    requires later != []
    ensures Join([a, b] + later, " AND ") == a + " AND " + (b + " AND " + Join(later, " AND "))
  {
    hide Join;
    JoinNext(b, later);
    JoinNext(a, [b] + later);
    assert [a, b] + later == [a] + ([b] + later);
  }

  lemma SeriesText(signals: seq<string>, from: Time, to: Time)
    ensures SeriesWhere(signals, from, to) ==
      Join(SummaryTexts("series", signals, None) + WindowTexts(Some((from, to))), " AND ")
  {
    SeenMeans(from, to);
    KindQuoted();
    hide Quote, SignalInList, TimeTo, TimeFrom, MetadataTimePredicate;
    var seen, list := SeenTexts(from, to), SignalInList(signals);
    assert ["kind = " + Quote("series"), "signal IN (" + list + ")"] + [] ==
      ["kind = " + Quote("series"), "signal IN (" + list + ")"];
    JoinMore("kind = " + Quote("series"), "signal IN (" + list + ")", seen);
    SeriesPieces(list, MetadataTimePredicate(from, to));
  }

  lemma KindQuoted()
    ensures "kind = " + Quote("series") == "kind = 'series'"
    ensures "kind = " + Quote("metric_metadata") == "kind = 'metric_metadata'"
  {
    hide Quote;
    PlainQuoted("series");
    PlainQuoted("metric_metadata");
    SeriesSpelled();
    MetadataSpelled();
  }

  lemma SeriesSpelled()
    ensures "kind = " + ("'" + "series" + "'") == "kind = 'series'"
  {
    assert "'" + "series" + "'" == "'series'";
  }

  lemma MetadataSpelled()
    ensures "kind = " + ("'" + "metric_metadata" + "'") == "kind = 'metric_metadata'"
  {
    assert "'" + "metric_metadata" + "'" == "'metric_metadata'";
  }

  lemma {:induction false} PlainEscapes(s: string)
    requires '\'' !in s
    ensures EscapeValue(s) == s
  {
    if s != [] {
      PlainEscapes(s[1..]);
    }
  }

  lemma PlainQuoted(s: string)
    requires '\'' !in s
    ensures Quote(s) == "'" + s + "'"
  {
    PlainEscapes(s);
  }

  lemma SeriesPieces(list: string, seen: string)
    ensures "kind = 'series' AND signal IN (" + list + ") AND " + seen ==
      "kind = 'series'" + " AND " + ("signal IN (" + list + ")" + " AND " + seen)
  {
    assert "kind = 'series'" + " AND " + "signal IN (" == "kind = 'series' AND signal IN (";
    assert ")" + " AND " == ") AND ";
  }

  lemma MetadataText()
    ensures MetricMetadataWhere() ==
      Join(SummaryTexts("metric_metadata", [GAUGES, SUMS], None) + WindowTexts(None), " AND ")
  {
    KindQuoted();
    hide Quote, SignalInList;
    var list := SignalInList([GAUGES, SUMS]);
    var texts := SummaryTexts("metric_metadata", [GAUGES, SUMS], None) + WindowTexts(None);
    assert texts == ["kind = " + Quote("metric_metadata"), "signal IN (" + list + ")"];
    JoinTwo("kind = " + Quote("metric_metadata"), "signal IN (" + list + ")");
    MetadataPieces(list);
  }

  lemma MetadataPieces(list: string)
    ensures "kind = 'metric_metadata' AND signal IN (" + list + ")" ==
      "kind = 'metric_metadata'" + " AND " + ("signal IN (" + list + ")")
  {
    assert "kind = 'metric_metadata'" + " AND " + "signal IN (" == "kind = 'metric_metadata' AND signal IN (";
  }

  /** The WHERE condition of a question's statement over the summary. */
  function SummaryWhere(q: Question): string {
    match q
    case PrometheusLabelValues(name, from, to) => LabelValuesWhere([GAUGES, SUMS], "label_value", name, from, to)
    case PrometheusSeries(from, to) => SeriesWhere([GAUGES, SUMS], from, to)
    case PrometheusMetricMetadata => MetricMetadataWhere()
    case LokiLabelValues(name, from, to) => LabelValuesWhere([LOGS], "label_value", name, from, to)
    case LokiSeries(from, to) => SeriesWhere([LOGS], from, to)
    case TempoTagValues(name, from, to) => LabelValuesWhere([SPANS], "tag_value", name, from, to)
  }

  /** A statement over the summary with this condition. */
  ghost predicate SelectsSummary(statement: string, prefix: string, where: string) {
    exists columns, groups ::
      statement == "SELECT " + columns + " FROM " + prefix + "metadata_summary WHERE " + where + " GROUP BY " + groups
  }

  ghost predicate AsksSummary(statements: seq<string>, prefix: string, where: string) {
    statements != [] && SelectsSummary(statements[0], prefix, where)
  }

  lemma SqlSelectsSummary(prefix: string, columns: string, where: string, groups: string)
    ensures SelectsSummary(SummarySql(prefix, columns, where, groups), prefix, where)
  {
  }

  lemma ValuesSelected(prefix: string, signals: seq<string>, kind: string, name: string, from: Time, to: Time)
    ensures SelectsSummary(LabelValuesSql(prefix, signals, kind, name, from, to), prefix,
                           LabelValuesWhere(signals, kind, name, from, to))
  {
    hide LabelValuesWhere, SummarySql, SelectsSummary;
    SqlSelectsSummary(prefix, "value, sum(row_count) AS rows", LabelValuesWhere(signals, kind, name, from, to),
                      "1 ORDER BY value LIMIT 1000");
  }

  lemma SeriesSelected(prefix: string, columns: string, signals: seq<string>, from: Time, to: Time)
    ensures SelectsSummary(SeriesSql(prefix, columns, signals, from, to), prefix, SeriesWhere(signals, from, to))
  {
    hide SeriesWhere, SummarySql, SelectsSummary;
    SqlSelectsSummary(prefix, columns + ", sum(row_count) AS rows", SeriesWhere(signals, from, to),
                      "1,2,3 ORDER BY rows DESC, " + columns + " LIMIT 1000");
  }

  lemma MetadataSelected(prefix: string)
    ensures SelectsSummary(MetricMetadataSql(prefix), prefix, MetricMetadataWhere())
  {
    hide MetricMetadataWhere, SummarySql, SelectsSummary;
    SqlSelectsSummary(prefix,
                      "name, metric_type, max(coalesce(metric_unit, '')) AS unit, "
                      + "max(coalesce(metric_description, '')) AS help, max(last_seen) AS last_seen",
                      MetricMetadataWhere(), "1,2 ORDER BY last_seen DESC, name, metric_type LIMIT 1000");
  }

  lemma SummarySelected(reg: L.Registry, prefix: string, q: Question)
    ensures AsksSummary(Statements(reg, prefix, q), prefix, SummaryWhere(q))
  {
    hide SelectsSummary, LabelValuesSql, SeriesSql, MetricMetadataSql, LabelValuesWhere, SeriesWhere,
      MetricMetadataWhere, RawValuesSql, RawSeriesSql, Replaced, RawLabelExpr, RawEnvironment;
    match q
    case PrometheusMetricMetadata => MetadataSelected(prefix);
    case PrometheusSeries(from, to) => SeriesSelected(prefix, PROMETHEUS_SERIES, [GAUGES, SUMS], from, to);
    case LokiSeries(from, to) => SeriesSelected(prefix, LOKI_SERIES, [LOGS], from, to);
    case PrometheusLabelValues(name, from, to) =>
      ValuesSelected(prefix, [GAUGES, SUMS], "label_value", name, from, to);
    case LokiLabelValues(name, from, to) => ValuesSelected(prefix, [LOGS], "label_value", name, from, to);
    case TempoTagValues(name, from, to) => ValuesSelected(prefix, [SPANS], "tag_value", name, from, to);
  }

  /**
   The first statement of every question runs over the summary, and its condition, read as
   SQL, is true of exactly the rows the question asks for: by kind, signal and name, and
   seen within its span of time.
   */
  lemma SummaryKeepsAskedRows(reg: L.Registry, prefix: string, db: Database, row: Row, q: Question)
    ensures AsksSummary(Statements(reg, prefix, q), prefix, SummaryWhere(q))
    ensures var c := Condition(SummaryWhere(q)); c.Some? && (Passes(db, row, c.value) <==> Asked(db, row, q))
  {
    SummarySelected(reg, prefix, q);
    hide Statements, SelectsSummary, Condition, Passes, SeenWithin, LabelValuesWhere, SeriesWhere, MetricMetadataWhere,
      SummaryTexts, WindowTexts;
    match q
    case PrometheusLabelValues(name, from, to) =>
      LabelValuesText([GAUGES, SUMS], "label_value", name, from, to);
      SummaryCondition(db, row, "label_value", [GAUGES, SUMS], Some(name), Some((from, to)));
    case PrometheusSeries(from, to) =>
      SeriesText([GAUGES, SUMS], from, to);
      SummaryCondition(db, row, "series", [GAUGES, SUMS], None, Some((from, to)));
    case PrometheusMetricMetadata =>
      MetadataText();
      SummaryCondition(db, row, "metric_metadata", [GAUGES, SUMS], None, None);
    case LokiLabelValues(name, from, to) =>
      LabelValuesText([LOGS], "label_value", name, from, to);
      SummaryCondition(db, row, "label_value", [LOGS], Some(name), Some((from, to)));
    case LokiSeries(from, to) =>
      SeriesText([LOGS], from, to);
      SummaryCondition(db, row, "series", [LOGS], None, Some((from, to)));
    case TempoTagValues(name, from, to) =>
      LabelValuesText([SPANS], "tag_value", name, from, to);
      SummaryCondition(db, row, "tag_value", [SPANS], Some(name), Some((from, to)));
  }

  // ----- The raw tables -----

  /** A raw row lies in the span of time, as it is written. */
  ghost predicate RecordedWithin(db: Database, row: Row, from: Time, to: Time) {
    db.timestamp(from.SqlText()) <= row.times(TIME) < db.timestamp(to.SqlText())
  }

  function RawTexts(from: Time, to: Time): seq<string> {
    [TimeFrom(TIME, from.SqlText()), TimeTo(TIME, to.SqlText())]
  }

  ghost function RawConds(from: Time, to: Time): seq<Cond> {
    [TimeCond(TIME, AtLeast, from.SqlText()), TimeCond(TIME, Less, to.SqlText())]
  }

  lemma RawMeans(from: Time, to: Time)
    ensures AllMean(RawTexts(from, to), RawConds(from, to))
    ensures RawTimePredicate(from, to) == Join(RawTexts(from, to), " AND ")
  {
    hide Means, Quote, TimeCond;
    assert IsColumn(TIME);
    TimeFromMeans(TIME, from.SqlText());
    TimeToMeans(TIME, to.SqlText());
    JoinTwo(TimeFrom(TIME, from.SqlText()), TimeTo(TIME, to.SqlText()));
  }

  lemma RawPasses(db: Database, row: Row, from: Time, to: Time)
    ensures RecordedWithin(db, row, from, to) <==> forall c | c in RawConds(from, to) :: Passes(db, row, c)
  {
    var cs := RawConds(from, to);
    assert cs[0] in cs && cs[1] in cs;
  }

  lemma NotEmptyPasses(db: Database, row: Row, column: string)
    requires column != "body"
    ensures Passes(db, row, Compare(NotEqual, [Word(column)], [Literal("")])) <==>
      Column(row, column).Some? && Column(row, column).value != ""
  {
  }

  function ValueTexts(): seq<string> {
    ["value IS NOT NULL", "value <> ''"]
  }

  ghost function ValueConds(): seq<Cond> {
    [NotNull([Word("value")]), Compare(NotEqual, [Word("value")], [Literal("")])]
  }

  lemma ValuePasses(db: Database, row: Row)
    ensures (forall c | c in ValueConds() :: Passes(db, row, c)) <==>
      Column(row, "value").Some? && Column(row, "value").value != ""
  {
    NotNullPasses(db, row, "value");
    NotEmptyPasses(db, row, "value");
    hide Passes, Column;
    var cs := ValueConds();
    assert cs[0] in cs && cs[1] in cs;
  }

  /** The raw values kept are those recorded in the span of time that are there and not empty. */
  lemma RawValuesKeepRecordedRows(db: Database, row: Row, from: Time, to: Time)
    ensures var c := Condition(RawValuesWhere(from, to));
      c.Some? && (Passes(db, row, c.value) <==>
        Column(row, "value").Some? && Column(row, "value").value != "" && RecordedWithin(db, row, from, to))
  {
    RawMeans(from, to);
    RawPasses(db, row, from, to);
    ValuePasses(db, row);
    ValueTextsMean();
    RawValuesText(from, to);
    hide Means, Condition, Passes, RawTexts, RawConds, RawTimePredicate, RawValuesWhere, Join, ValueTexts, ValueConds,
      Column, RecordedWithin;
    BothPass(db, row, ValueTexts(), ValueConds(), RawTexts(from, to), RawConds(from, to));
  }

  lemma RawValuesText(from: Time, to: Time)
    ensures RawValuesWhere(from, to) == Join(ValueTexts() + RawTexts(from, to), " AND ")
  {
    RawMeans(from, to);
    RawNotEmpty(from, to);
    hide RawTexts, RawTimePredicate, Join;
    JoinMore("value IS NOT NULL", "value <> ''", RawTexts(from, to));
    RawValuesPieces(RawTimePredicate(from, to));
  }

  lemma RawNotEmpty(from: Time, to: Time)
    ensures RawTexts(from, to) != [] && RawConds(from, to) != []
  {
  }

  lemma ValueTextsMean()
    ensures AllMean(ValueTexts(), ValueConds()) && ValueConds() != []
  {
    hide Means;
    assert IsColumn("value");
    NotNullMeans("value");
    NotEmptyMeans("value");
    assert "value" + " IS NOT NULL" == "value IS NOT NULL" && "value" + " <> ''" == "value <> ''";
  }

  lemma RawValuesPieces(time: string)
    ensures "value IS NOT NULL AND value <> '' AND " + time ==
      "value IS NOT NULL" + " AND " + ("value <> ''" + " AND " + time)
  {
    assert "value IS NOT NULL" + " AND " + "value <> ''" + " AND " == "value IS NOT NULL AND value <> '' AND ";
  }

  lemma RawSeriesKeepRecordedRows(db: Database, row: Row, from: Time, to: Time)
    ensures var c := Condition(RawTimePredicate(from, to));
      c.Some? && (Passes(db, row, c.value) <==> RecordedWithin(db, row, from, to))
  {
    RawMeans(from, to);
    RawPasses(db, row, from, to);
    hide Means, Condition, Passes, RawTexts, RawConds, RawTimePredicate;
    RawNotEmpty(from, to);
    JoinedPasses(db, row, RawTexts(from, to), RawConds(from, to));
  }
}
