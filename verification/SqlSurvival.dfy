/**
 The finished statement of a log query has `{prefix}` replaced in it (`src/query/mod.rs`).
 Which queries keep their condition through that is decided by what the plan contains.
 */
module SqlSurvival {
  import opened BasicTypes
  import opened Text
  import opened Labels
  import opened Selector
  import opened Normalize
  import opened LogQuery
  import opened SqlText
  import opened SqlPrefix
  import opened SqlLowering

  // ----- What of a plan is written into its condition -----

  /** The label's expression is written, unless the matcher is one of the `.*` shortcuts. */
  predicate ReadsLabel(m: FieldMatcher) {
    m.op == Eq || m.op == NotEq || m.value != ".*"
  }

  ghost predicate MatcherMentions(reg: Registry, m: FieldMatcher) {
    || Contains(m.value, PREFIX)
    || (ReadsLabel(m) && LabelExpr(reg, Logs, m.field).Some? && Contains(LabelExpr(reg, Logs, m.field).value, PREFIX))
  }

  ghost predicate FilterMentions(f: TextFilter) {
    match f
    case BodyContains(text) => exists i | 0 <= i < |Terms(text)| :: Contains(Terms(text)[i], PREFIX)
    case BodyRegex(pattern) => Contains(pattern, PREFIX)
  }

  /** Some value, search term, pattern, written time or used label expression contains `{prefix}`. */
  ghost predicate PlanMentions(reg: Registry, plan: LogPlan, format: int -> string, from: int, to: int) {
    || Contains(format(Millis(from)), PREFIX)
    || Contains(format(Millis(to)), PREFIX)
    || (exists i | 0 <= i < |plan.matchers| :: MatcherMentions(reg, plan.matchers[i]))
    || (exists i | 0 <= i < |plan.textFilters| :: FilterMentions(plan.textFilters[i]))
  }

  // ----- Texts around a quoted value -----

  /** Text without a brace before a quoted value. */
  lemma QuotedAfter(before: string, value: string)
    requires '{' !in before
    ensures Contains(before + Quote(value), PREFIX) <==> Contains(value, PREFIX)
  {
    hide Quote, Find;
    FreeBefore(before, Quote(value), PREFIX);
    QuotedContains(value, PREFIX);
  }

  lemma QuotedBetween(before: string, value: string, after: string)
    requires '{' !in before && '{' !in after
    ensures Contains(before + Quote(value) + after, PREFIX) <==> Contains(value, PREFIX)
  {
    hide EscapeValue, Find;
    var open, e := before + "'", EscapeValue(value);
    assert before + Quote(value) + after == open + (e + ['\''] + after);
    FreeBefore(open, e + ['\''] + after, PREFIX);
    FreeAcross(e, '\'', after, PREFIX);
    EscapedContains(value, PREFIX);
    FreeBefore(after, [], PREFIX);
    NothingInEmpty(PREFIX);
    assert after + [] == after;
  }

  /** A label expression in its place, before any text that starts with a space. */
  lemma ExprBetween(before: string, expr: string, rest: string)
    requires '{' !in before
    ensures Contains(before + expr + (" " + rest), PREFIX) <==> Contains(expr, PREFIX) || Contains(rest, PREFIX)
  {
    hide Find;
    assert before + expr + (" " + rest) == before + (expr + [' '] + rest);
    FreeBefore(before, expr + [' '] + rest, PREFIX);
    FreeAcross(expr, ' ', rest, PREFIX);
  }

  const VALUE_END := "AS VARCHAR), '')"

  /** The operand a matcher reads, between its call's opening and whatever is written after it. */
  lemma ValueMentions(open: string, expr: string, between: string, value: string, close: string)
    requires '{' !in open && '{' !in between && '{' !in close
    ensures Contains(open + ValueExpr(expr) + between + Quote(value) + close, PREFIX) <==>
      Contains(expr, PREFIX) || Contains(value, PREFIX)
  {
    hide Quote, Find;
    var before, rest := open + "coalesce(cast(", VALUE_END + between + Quote(value) + close;
    ValueText(open, expr, between + Quote(value) + close);
    assert open + ValueExpr(expr) + between + Quote(value) + close ==
      open + ValueExpr(expr) + (between + Quote(value) + close);
    assert VALUE_END + (between + Quote(value) + close) == rest;
    ExprBetween(before, expr, rest);
    QuotedBetween(VALUE_END + between, value, close);
  }

  lemma ValueText(open: string, expr: string, rest: string)
    ensures open + ValueExpr(expr) + rest == open + "coalesce(cast(" + expr + (" " + (VALUE_END + rest))
  {
    assert " " + VALUE_END == " AS VARCHAR), '')";
  }

  // ----- Clauses -----

  ghost predicate SomeMention(texts: seq<string>) {
    exists i | 0 <= i < |texts| :: Contains(texts[i], PREFIX)
  }

  lemma OneText(text: string)
    ensures SomeMention([text]) <==> Contains(text, PREFIX)
  {
    hide Find;
    assert [text][0] == text;
  }

  lemma CompareMentions(expr: string, m: FieldMatcher)
    requires m.op == Eq || m.op == NotEq
    ensures SomeMention(MatcherClauses(expr, m)) <==> Contains(expr, PREFIX) || Contains(m.value, PREFIX)
  {
    hide Quote, Find, ValueExpr;
    var between := if m.op == Eq then " = " else " != ";
    ValueMentions("", expr, between, m.value, "");
    var text := ValueExpr(expr) + between + Quote(m.value);
    assert "" + ValueExpr(expr) + between + Quote(m.value) + "" == text;
    OneText(text);
  }

  lemma MatchMentions(expr: string, m: FieldMatcher)
    requires m.value != ".*" && (m.op == Regex || m.op == NotRegex)
    ensures SomeMention(MatcherClauses(expr, m)) <==> Contains(expr, PREFIX) || Contains(m.value, PREFIX)
  {
    hide Quote, Find, ValueExpr;
    var open := if m.op == Regex then "regexp_matches(" else "NOT regexp_matches(";
    ValueMentions(open, expr, ", ", m.value, ")");
    OneText(open + ValueExpr(expr) + ", " + Quote(m.value) + ")");
  }

  lemma ShortcutMentionsNothing(expr: string, m: FieldMatcher)
    requires !ReadsLabel(m)
    ensures !SomeMention(MatcherClauses(expr, m)) && !Contains(m.value, PREFIX)
  {
    FindNothing("FALSE", PREFIX);
    FindNothing(".*", PREFIX);
    hide Find;
    OneText("FALSE");
  }

  lemma ClausesMention(reg: Registry, m: FieldMatcher)
    requires LabelExpr(reg, Logs, m.field).Some?
    ensures SomeMention(MatcherClauses(LabelExpr(reg, Logs, m.field).value, m)) <==> MatcherMentions(reg, m)
  {
    hide LabelExpr, Find, MatcherClauses, SomeMention;
    var expr := LabelExpr(reg, Logs, m.field).value;
    if !ReadsLabel(m) {
      ShortcutMentionsNothing(expr, m);
    } else if m.op == Eq || m.op == NotEq {
      CompareMentions(expr, m);
    } else {
      MatchMentions(expr, m);
    }
  }

  lemma MentionConcat(a: seq<string>, b: seq<string>)
    ensures SomeMention(a + b) <==> SomeMention(a) || SomeMention(b)
  {
    hide Find;
    if SomeMention(a) {
      var i :| 0 <= i < |a| && Contains(a[i], PREFIX);
      assert (a + b)[i] == a[i];
    }
    if SomeMention(b) {
      var i :| 0 <= i < |b| && Contains(b[i], PREFIX);
      assert (a + b)[|a| + i] == b[i];
    }
  }

  ghost predicate SomeMatcherMentions(reg: Registry, ms: seq<FieldMatcher>) {
    exists i | 0 <= i < |ms| :: MatcherMentions(reg, ms[i])
  }

  ghost predicate SomeFilterMentions(fs: seq<TextFilter>) {
    exists i | 0 <= i < |fs| :: FilterMentions(fs[i])
  }

  lemma {:induction false} MatchersMention(reg: Registry, ms: seq<FieldMatcher>)
    requires AllMatcherClauses(reg, Logs, ms).Ok?
    ensures SomeMention(AllMatcherClauses(reg, Logs, ms).value) <==> SomeMatcherMentions(reg, ms)
  {
    hide LabelExpr, MatcherClauses, MatcherMentions;
    if ms != [] {
      MatchersMention(reg, ms[1..]);
      ClausesMention(reg, ms[0]);
      var own := MatcherClauses(LabelExpr(reg, Logs, ms[0].field).value, ms[0]);
      MentionConcat(own, AllMatcherClauses(reg, Logs, ms[1..]).value);
      hide SomeMention, AllMatcherClauses;
      assert forall i | 1 <= i < |ms| :: ms[i] == ms[1..][i - 1];
      assert forall i | 0 <= i < |ms[1..]| :: ms[1..][i] == ms[i + 1];
    }
  }

  // ----- Text filters -----

  lemma {:induction false} JoinMentions(texts: seq<string>, word: string)
    requires texts != [] && '{' !in word
    ensures Contains(Join(texts, " " + word + " "), PREFIX) <==> SomeMention(texts)
    decreases |texts|
  {
    hide Find;
    var sep := " " + word + " ";
    if |texts| == 1 {
      assert texts == [texts[0]];
      OneText(texts[0]);
    } else {
      JoinMentions(texts[1..], word);
      var rest := Join(texts[1..], sep);
      assert Join(texts, sep) == texts[0] + [' '] + (word + " " + rest);
      FreeAcross(texts[0], ' ', word + " " + rest, PREFIX);
      FreeBefore(word + " ", rest, PREFIX);
      assert texts == [texts[0]] + texts[1..];
      MentionConcat([texts[0]], texts[1..]);
      OneText(texts[0]);
    }
  }

  lemma TermMentions(term: string)
    ensures Contains(TermClause("body", term), PREFIX) <==> Contains(term, PREFIX)
  {
    hide Find, Quote;
    QuotedAfter("body ILIKE ", "%" + term + "%");
    FreeBefore("%", term + "%", PREFIX);
    FreeAcross(term, '%', "", PREFIX);
    NothingInEmpty(PREFIX);
    assert "%" + term + "%" == "%" + (term + "%") && term + ['%'] + "" == term + "%";
    assert "body" + " ILIKE " == "body ILIKE ";
  }

  lemma SearchMentions(query: string)
    requires TextClause("body", query).Ok?
    ensures Contains(TextClause("body", query).value, PREFIX) <==> FilterMentions(BodyContains(query))
  {
    hide Find, Terms, IsDisjunction, TermClause, Join;
    var terms := Terms(query);
    var texts := TermClauses("body", terms);
    forall i | 0 <= i < |terms| ensures Contains(texts[i], PREFIX) <==> Contains(terms[i], PREFIX) {
      TermMentions(terms[i]);
    }
    if terms == [] {
      FindNothing("TRUE", PREFIX);
    } else {
      var word := if IsDisjunction(query) then "OR" else "AND";
      var inner := Join(texts, " " + word + " ");
      JoinMentions(texts, word);
      assert " " + word + " " == Operator(query);
      GroupMentions(inner);
    }
  }

  lemma GroupMentions(inner: string)
    ensures Contains("(" + inner + ")", PREFIX) <==> Contains(inner, PREFIX)
  {
    hide Find;
    assert "(" + inner + ")" == "(" + (inner + [')'] + []);
    FreeBefore("(", inner + [')'] + [], PREFIX);
    FreeAcross(inner, ')', [], PREFIX);
    NothingInEmpty(PREFIX);
  }

  lemma FilterClauseMentions(f: TextFilter)
    requires FilterClause(f).Ok?
    ensures Contains(FilterClause(f).value, PREFIX) <==> FilterMentions(f)
  {
    hide Find, Quote, Terms, TextClause;
    match f
    case BodyContains(text) => SearchMentions(text);
    case BodyRegex(pattern) => QuotedBetween("regexp_matches(coalesce(body, ''), ", pattern, ")");
  }

  lemma {:induction false} FiltersMention(fs: seq<TextFilter>)
    requires FilterClauses(fs).Ok?
    ensures SomeMention(FilterClauses(fs).value) <==> SomeFilterMentions(fs)
  {
    hide Find, FilterClause, FilterMentions;
    if fs != [] {
      FiltersMention(fs[1..]);
      FilterClauseMentions(fs[0]);
      OneText(FilterClause(fs[0]).value);
      MentionConcat([FilterClause(fs[0]).value], FilterClauses(fs[1..]).value);
      hide SomeMention, FilterClauses;
      assert forall i | 1 <= i < |fs| :: fs[i] == fs[1..][i - 1];
      assert forall i | 0 <= i < |fs[1..]| :: fs[1..][i] == fs[i + 1];
    }
  }

  // ----- The whole condition -----

  lemma TimeMentions(column: string, format: int -> string, from: int, to: int)
    requires '{' !in column
    ensures Contains(TimePredicate(column, format(Millis(from)), format(Millis(to))), PREFIX) <==>
      Contains(format(Millis(from)), PREFIX) || Contains(format(Millis(to)), PREFIX)
  {
    hide Find, Quote;
    var a, b := TimeFrom(column, format(Millis(from))), TimeTo(column, format(Millis(to)));
    QuotedAfter(column + " >= TIMESTAMP ", format(Millis(from)));
    QuotedAfter(column + " < TIMESTAMP ", format(Millis(to)));
    hide TimeFrom, TimeTo;
    assert TimePredicate(column, format(Millis(from)), format(Millis(to))) == a + [' '] + ("AND " + b);
    FreeAcross(a, ' ', "AND " + b, PREFIX);
    FreeBefore("AND ", b, PREFIX);
  }

  lemma WhereMentions(reg: Registry, plan: LogPlan, format: int -> string, from: int, to: int)
    requires WhereClauses(reg, plan, format, from, to).Ok?
    ensures Contains(Join(WhereClauses(reg, plan, format, from, to).value, " AND "), PREFIX) <==>
      PlanMentions(reg, plan, format, from, to)
  {
    hide Find, AllMatcherClauses, FilterClauses, TimePredicate, SomeMention, MatcherMentions, FilterMentions, Join;
    var time := TimePredicate("time_unix_nano", format(Millis(from)), format(Millis(to)));
    var ms, fs := AllMatcherClauses(reg, Logs, plan.matchers).value, FilterClauses(plan.textFilters).value;
    TimeMentions("time_unix_nano", format, from, to);
    OneText(time);
    MatchersMention(reg, plan.matchers);
    FiltersMention(plan.textFilters);
    MentionConcat([time], ms);
    MentionConcat([time] + ms, fs);
    JoinMentions([time] + ms + fs, "AND");
    assert " " + "AND" + " " == " AND ";
  }

  /**
   Replacing `{prefix}` leaves the condition of a log query as it was exactly if nothing the
   plan writes into it contains `{prefix}`, or it is replaced by itself.
   */
  lemma ConditionSurvivesExactlyWhen(reg: Registry, plan: LogPlan, format: int -> string, from: int, to: int,
                                     prefix: string)
    requires WhereClauses(reg, plan, format, from, to).Ok?
    ensures var where := Join(WhereClauses(reg, plan, format, from, to).value, " AND ");
      Replaced(where, PREFIX, prefix) == where <==> !PlanMentions(reg, plan, format, from, to) || prefix == PREFIX
  {
    hide Find, WhereClauses, PlanMentions, Replaced, Join;
    WhereMentions(reg, plan, format, from, to);
    UnchangedExactlyWhen(Join(WhereClauses(reg, plan, format, from, to).value, " AND "), PREFIX, prefix);
  }

  /** A label value `{prefix}` can be asked for in the text of a query, and is then replaced. */
  lemma PrefixValueIsReplaced(reg: Registry, field: string, format: int -> string, from: int, to: int, prefix: string)
    requires PlainField(field) && FirstMatch(AliasPairsOf(reg, Logs), field).Some? && prefix != PREFIX
    ensures var plan := ParseLokiQuery(reg, PrintSelector("", [FieldMatcher(field, PREFIX, Eq)]));
      && plan.Ok? && WhereClauses(reg, plan.value, format, from, to).Ok?
      && var where := Join(WhereClauses(reg, plan.value, format, from, to).value, " AND ");
         Replaced(where, PREFIX, prefix) != where
  {
    var pairs, m := AliasPairsOf(reg, Logs), FieldMatcher(field, PREFIX, Eq);
    PrefixIsPrintable(field);
    hide PlainField, Printable, AliasPairsOf, FirstMatch, PrintSelector, ParseLokiQuery, Replaced, Join;
    LogQueryRoundTrip(reg, "", [m], []);
    assert PrintSelector("", [m]) + PrintFilters([]) == PrintSelector("", [m]);
    SingleNormalizes(pairs, m);
    var out := m.(field := FirstMatch(pairs, field).value);
    ResolvedHasExpr(reg, Logs, field);
    var plan := LogPlan([out], []);
    SingleLowers(reg, out, format, from, to);
    assert Contains(plan.matchers[0].value, PREFIX) by { ContainsItself(PREFIX); }
    assert MatcherMentions(reg, plan.matchers[0]);
    hide MatcherMentions, WhereClauses;
    ConditionSurvivesExactlyWhen(reg, plan, format, from, to, prefix);
  }

  lemma ContainsItself(s: string)
    requires s != []
    ensures Contains(s, s)
  {
  }

  lemma PrefixIsPlain()
    ensures '|' !in PREFIX && '!' !in PREFIX && '=' !in PREFIX && '"' !in PREFIX && '\\' !in PREFIX
  {
  }

  lemma PrefixIsPrintable(field: string)
    requires PlainField(field)
    ensures AllPrintable([FieldMatcher(field, PREFIX, Eq)]) && PipeFree([FieldMatcher(field, PREFIX, Eq)])
  {
    PrefixIsPlain();
    hide Find, NoPipe, PlainField;
    NoBarNoPipe(PREFIX);
    FindNothing(PREFIX, "!~");
    FindNothing(PREFIX, "=~");
    FindNothing(PREFIX, "!=");
    var m := FieldMatcher(field, PREFIX, Eq);
    assert Printable(m);
  }

  lemma SingleNormalizes(pairs: Pairs, m: FieldMatcher)
    requires FirstMatch(pairs, m.field).Some?
    ensures Normalized(pairs, [m]) == Ok([m.(field := FirstMatch(pairs, m.field).value)])
  {
    hide FirstMatch;
    var out := [m.(field := FirstMatch(pairs, m.field).value)];
    assert [m][1..] == [] && [] + out == out;
    assert NormalizeFrom(pairs, [], [m]) == NormalizeFrom(pairs, [] + out, [m][1..]);
  }

  lemma SingleLowers(reg: Registry, m: FieldMatcher, format: int -> string, from: int, to: int)
    requires LabelExpr(reg, Logs, m.field).Some?
    ensures WhereClauses(reg, LogPlan([m], []), format, from, to).Ok?
  {
    hide LabelExpr, MatcherClauses, TimePredicate;
    assert [m][1..] == [];
    assert AllMatcherClauses(reg, Logs, [m][1..]).Ok?;
    assert AllMatcherClauses(reg, Logs, [m]).Ok?;
  }
}
