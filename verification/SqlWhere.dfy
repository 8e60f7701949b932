/**
 The main result about lowering: the joined clauses of a log query, read as SQL, keep exactly
 the rows within the bounds that satisfy every matcher and every text filter.
 */
module SqlWhere {
  import opened BasicTypes
  import opened Text
  import opened Labels
  import opened Selector
  import opened LogQuery
  import opened SqlText
  import opened SqlCondition
  import opened SqlLowering
  import opened SqlMeaning
  import opened SqlPrefix

  // ----- Time bounds -----

  lemma TimePasses(db: Database, format: int -> string, row: Row, from: int, to: int)
    requires Sane(db, format)
    ensures InBounds(row, from, to) <==>
      && Passes(db, row, TimeCond(TIME, AtLeast, format(Millis(from))))
      && Passes(db, row, TimeCond(TIME, Less, format(Millis(to))))
  {
    assert db.timestamp(format(Millis(from))) == Millis(from) * NANOS_PER_MILLI;
    assert db.timestamp(format(Millis(to))) == Millis(to) * NANOS_PER_MILLI;
  }

  // ----- Matchers -----

  lemma ValueEval(row: Row, e: seq<Token>)
    ensures TextValue(row, ValueTokens(e)) == match row.labels(e) case Some(v) => Some(v) case None => Some("")
  {
    var ts := ValueTokens(e);
    var cast := [Word("cast"), Symbol('(')] + e + [Word("AS"), Word("VARCHAR"), Symbol(')')];
    assert ts[..2] == [Word("coalesce"), Symbol('(')] && ts[|ts| - 2] == Literal([]);
    assert ts[2..|ts| - 3] == cast;
    assert cast[..2] == [Word("cast"), Symbol('(')] && cast[2..|cast| - 3] == e;
    assert TextValue(row, cast) == row.labels(e);
  }

  lemma LiteralEval(row: Row, v: string)
    ensures TextValue(row, [Literal(v)]) == Some(v)
  {
  }

  ghost predicate AllPass(db: Database, row: Row, cs: seq<Cond>) {
    forall i | 0 <= i < |cs| :: Passes(db, row, cs[i])
  }

  lemma MatcherPasses(db: Database, format: int -> string, row: Row, expr: string, m: FieldMatcher)
    requires Sane(db, format) && Closed(expr)
    ensures AllPass(db, row, MatcherConds(expr, m)) <==> MatcherHolds(db, row, expr, m)
  {
    ValueEval(row, Lex(expr).value);
    LiteralEval(row, m.value);
    hide TextValue, ValueTokens, Lex;
    var value, v := ValueTokens(Lex(expr).value), LabelText(row, expr);
    assert TextValue(row, value) == Some(v);
    assert db.matches(v, ".*");
    var cs := MatcherConds(expr, m);
    assert AllPass(db, row, cs) <==> cs == [] || Passes(db, row, cs[0]);
    match m.op
    case Eq =>
    case NotEq =>
    case Regex =>
    case NotRegex =>
      if m.value != ".*" {
        assert Eval(db, row, Matches(value, [Literal(m.value)])) == Known(db.matches(v, m.value));
      }
  }

  ghost function AllMatcherConds(reg: Registry, ms: seq<FieldMatcher>): seq<Cond>
    requires ClosedRegistry(reg, Logs)
  {
    if ms == [] then []
    else
      match LabelExpr(reg, Logs, ms[0].field)
      case None => []
      case Some(expr) => MatcherConds(expr, ms[0]) + AllMatcherConds(reg, ms[1..])
  }

  ghost predicate AllLabelled(reg: Registry, ms: seq<FieldMatcher>) {
    forall i | 0 <= i < |ms| :: LabelExpr(reg, Logs, ms[i].field).Some?
  }

  lemma MeanConcat(a: seq<string>, b: seq<string>, cs: seq<Cond>, ds: seq<Cond>)
    requires AllMean(a, cs) && AllMean(b, ds)
    ensures AllMean(a + b, cs + ds)
  {
    hide Means;
  }

  lemma PassConcat(db: Database, row: Row, cs: seq<Cond>, ds: seq<Cond>)
    ensures AllPass(db, row, cs + ds) <==> AllPass(db, row, cs) && AllPass(db, row, ds)
  {
    hide Passes;
    if AllPass(db, row, cs + ds) {
      assert forall i | 0 <= i < |cs| :: cs[i] == (cs + ds)[i];
      assert forall i | 0 <= i < |ds| :: ds[i] == (cs + ds)[|cs| + i];
    }
  }

  lemma {:induction false} MatchersLower(db: Database, format: int -> string, reg: Registry, row: Row,
                                         ms: seq<FieldMatcher>)
    requires Sane(db, format) && ClosedRegistry(reg, Logs)
    ensures AllMatcherClauses(reg, Logs, ms).Ok? <==> AllLabelled(reg, ms)
    ensures AllMatcherClauses(reg, Logs, ms).Ok? ==>
      && AllMean(AllMatcherClauses(reg, Logs, ms).value, AllMatcherConds(reg, ms))
      && (AllPass(db, row, AllMatcherConds(reg, ms)) <==> MatchersHold(db, reg, row, ms))
  {
    hide LabelExpr, MatcherClauses, MatcherConds, MatcherHolds, Means, Passes, Sane, Closed;
    if ms != [] {
      MatchersLower(db, format, reg, row, ms[1..]);
      var expr := LabelExpr(reg, Logs, ms[0].field);
      LabelledCons(reg, ms);
      if expr.Some? {
        MatcherMeans(expr.value, ms[0]);
        MatcherPasses(db, format, row, expr.value, ms[0]);
        HoldCons(db, reg, row, ms);
        hide AllLabelled, AllPass, MatchersHold, AllMean;
        if AllMatcherClauses(reg, Logs, ms[1..]).Ok? {
          MeanConcat(MatcherClauses(expr.value, ms[0]), AllMatcherClauses(reg, Logs, ms[1..]).value,
                     MatcherConds(expr.value, ms[0]), AllMatcherConds(reg, ms[1..]));
          PassConcat(db, row, MatcherConds(expr.value, ms[0]), AllMatcherConds(reg, ms[1..]));
        }
      }
    }
  }

  lemma LabelledCons(reg: Registry, ms: seq<FieldMatcher>)
    requires ms != []
    ensures AllLabelled(reg, ms) <==> LabelExpr(reg, Logs, ms[0].field).Some? && AllLabelled(reg, ms[1..])
  {
    hide LabelExpr;
    assert forall i | 0 <= i < |ms[1..]| :: ms[1..][i] == ms[i + 1];
    assert forall i | 1 <= i < |ms| :: ms[i] == ms[1..][i - 1];
  }

  lemma HoldCons(db: Database, reg: Registry, row: Row, ms: seq<FieldMatcher>)
    requires ClosedRegistry(reg, Logs) && ms != [] && LabelExpr(reg, Logs, ms[0].field).Some?
    ensures MatchersHold(db, reg, row, ms) <==>
      MatcherHolds(db, row, LabelExpr(reg, Logs, ms[0].field).value, ms[0]) && MatchersHold(db, reg, row, ms[1..])
  {
    hide LabelExpr, MatcherHolds, Closed;
    assert forall i | 0 <= i < |ms[1..]| :: ms[1..][i] == ms[i + 1];
    assert forall i | 1 <= i < |ms| :: ms[i] == ms[1..][i - 1];
  }

  // ----- Text filters -----

  ghost function TermCond(term: string): Cond {
    Compare(Like, [Word("body")], [Literal("%" + term + "%")])
  }

  ghost function TermConds(terms: seq<string>): seq<Cond> {
    seq(|terms|, i requires 0 <= i < |terms| => TermCond(terms[i]))
  }

  ghost function SearchCond(query: string): Cond {
    var cs := TermConds(Terms(query));
    if cs == [] then Constant(true) else if IsDisjunction(query) then OrAll(cs) else AndAll(cs)
  }

  ghost function FilterCond(f: TextFilter): Cond {
    match f
    case BodyContains(text) => SearchCond(text)
    case BodyRegex(pattern) => Matches(BodyTokens(), [Literal(pattern)])
  }

  lemma TermMeans(term: string)
    ensures Means(TermClause("body", term), TermCond(term))
  {
    hide Lex, Quote, ReadsAs;
    var pattern := "%" + term + "%";
    LoneQuoteLexes(pattern);
    SpacedWordLexes("ILIKE");
    LexConcat(" " + "ILIKE" + " ", Quote(pattern));
    WordLexes("body", " " + "ILIKE" + " " + Quote(pattern));
    assert "body" + (" " + "ILIKE" + " " + Quote(pattern)) == TermClause("body", term);
    ColumnCompareReads("body", Like, [Literal(pattern)]);
    assert [Word("body")] + ([Word("ILIKE")] + [Literal(pattern)]) ==
      [Word("body")] + OpTokens(Like) + [Literal(pattern)];
  }

  lemma SearchMeans(query: string)
    requires !HasParens(ToUpper(query))
    ensures TextClause("body", query).Ok? && Means(TextClause("body", query).value, SearchCond(query))
  {
    hide Means, Terms, IsDisjunction, TermClause, TermCond, Join, HasParens;
    var terms := Terms(query);
    forall i | 0 <= i < |terms| ensures Means(TermClause("body", terms[i]), TermCond(terms[i])) {
      TermMeans(terms[i]);
    }
    if terms == [] {
      TrueMeans();
    } else {
      GroupMeans(TermClauses("body", terms), TermConds(terms), IsDisjunction(query));
    }
  }

  lemma TrueMeans()
    ensures Means("TRUE", Constant(true))
  {
    WordAloneLexes("TRUE");
    ConstantReads(true);
    hide Lex, ReadsAs;
  }

  lemma BodyRegexMeans(pattern: string)
    ensures Means("regexp_matches(coalesce(body, ''), " + Quote(pattern) + ")",
                  Matches(BodyTokens(), [Literal(pattern)]))
  {
    hide Lex, Quote, MatchesTokens, ParseOperand, ParseNot;
    BodyValueLexes();
    OperandNoBraces(BodyTokens(), pattern);
    MatchesLexes("coalesce(body, '')", BodyTokens(), pattern);
    assert "regexp_matches(" + "coalesce(body, '')" + ", " == "regexp_matches(coalesce(body, ''), ";
    forall rest | EndsUnit(rest)
      ensures ParseNot(MatchesTokens(BodyTokens(), pattern) + rest) ==
        Some((Matches(BodyTokens(), [Literal(pattern)]), rest))
    {
      BodyValueParses(MatchesEnd(pattern) + rest);
      MatchesParses(BodyTokens(), pattern, rest);
    }
  }

  lemma TermPasses(db: Database, row: Row, term: string)
    ensures Passes(db, row, TermCond(term)) <==> row.body.Some? && TermFound(row.body.value, term)
  {
    hide LikeMatches, ToLower;
  }

  /** The operator is found where the word is said. */
  lemma DisjunctionSaysOr(query: string)
    ensures IsDisjunction(query) <==> SaysOr(query)
  {
    var upper := ToUpper(query);
    forall i: nat | i <= |query| ensures " OR " <= upper[i..] <==> OrAt(query, i) {
      OrFound(query, i);
    }
    hide ToUpper, OrAt;
    if SaysOr(query) {
      var i: nat :| OrAt(query, i);
      assert i <= |query| by { OrWithin(query, i); }
      assert " OR " <= upper[i..];
    }
  }

  lemma OrWithin(text: string, i: nat)
    requires OrAt(text, i)
    ensures i <= |text|
  {
  }

  lemma OrFound(query: string, i: nat)
    requires i <= |query|
    ensures " OR " <= ToUpper(query)[i..] <==> OrAt(query, i)
  {
    if i + 4 <= |query| {
      FourAt(ToUpper(query), i);
      UpperOf(query[i]);
      UpperOf(query[i + 1]);
      UpperOf(query[i + 2]);
      UpperOf(query[i + 3]);
    }
  }

  lemma UpperOf(c: char)
    ensures UpperChar(c) == ' ' <==> c == ' '
    ensures UpperChar(c) == 'O' <==> c in {'o', 'O'}
    ensures UpperChar(c) == 'R' <==> c in {'r', 'R'}
  {
  }

  lemma FourAt(s: string, i: nat)
    requires i <= |s| - 4
    ensures " OR " <= s[i..] <==> s[i] == ' ' && s[i + 1] == 'O' && s[i + 2] == 'R' && s[i + 3] == ' '
  {
    var tail := s[i..];
    assert tail[0] == s[i] && tail[1] == s[i + 1] && tail[2] == s[i + 2] && tail[3] == s[i + 3];
    if s[i] == ' ' && s[i + 1] == 'O' && s[i + 2] == 'R' && s[i + 3] == ' ' {
      assert tail[..4] == " OR ";
    }
  }

  /** Finding some or all terms is finding some or all parts that are not blank. */
  lemma TermsFound(row: Row, parts: seq<string>)
    requires row.body.Some?
    ensures var terms, body := NonBlank(parts), row.body.value;
      && (terms == [] <==> forall i | 0 <= i < |parts| :: Trim(parts[i]) == [])
      && ((exists i | 0 <= i < |terms| :: TermFound(body, terms[i])) <==>
            exists i | 0 <= i < |parts| :: Trim(parts[i]) != [] && PartFound(row, parts[i]))
      && ((forall i | 0 <= i < |terms| :: TermFound(body, terms[i])) <==>
            forall i | 0 <= i < |parts| && Trim(parts[i]) != [] :: PartFound(row, parts[i]))
  {
    hide Trim, NonBlank, TermFound;
    var terms, body := NonBlank(parts), row.body.value;
    forall i | 0 <= i < |terms| ensures exists j | 0 <= j < |parts| :: Trim(parts[j]) == terms[i] != [] {
      TermsAreParts(parts, terms[i]);
    }
    forall j | 0 <= j < |parts| && Trim(parts[j]) != [] ensures Trim(parts[j]) in terms {
      TermsAreParts(parts, Trim(parts[j]));
    }
    if terms != [] {
      TermsAreParts(parts, terms[0]);
    }
  }

  lemma SearchPasses(db: Database, row: Row, query: string)
    ensures Passes(db, row, SearchCond(query)) <==> SearchHolds(row, query)
  {
    DisjunctionSaysOr(query);
    TermsPass(db, row, query);
    var parts := SearchParts(query);
    TermsFound(row.(body := Some(if row.body.Some? then row.body.value else [])), parts);
    hide TermFound, IsDisjunction, SearchCond, Trim, NonBlank, SaysOr, Passes;
  }

  lemma TermsPass(db: Database, row: Row, query: string)
    ensures var terms := Terms(query);
      Passes(db, row, SearchCond(query)) <==>
        terms == [] || (row.body.Some? &&
          if IsDisjunction(query) then exists i | 0 <= i < |terms| :: TermFound(row.body.value, terms[i])
          else forall i | 0 <= i < |terms| :: TermFound(row.body.value, terms[i]))
  {
    hide TermCond, TermFound, Terms, IsDisjunction, AndAll, OrAll;
    var terms := Terms(query);
    var cs := TermConds(terms);
    forall i | 0 <= i < |cs|
      ensures Passes(db, row, cs[i]) <==> row.body.Some? && TermFound(row.body.value, terms[i])
    {
      TermPasses(db, row, terms[i]);
    }
    if cs != [] {
      PassesAll(db, row, cs);
      PassesAny(db, row, cs);
      hide Passes;
      assert Passes(db, row, cs[0]) <==> row.body.Some? && TermFound(row.body.value, terms[0]);
    }
  }

  lemma BodyEval(row: Row)
    ensures TextValue(row, BodyTokens()) == match row.body case Some(v) => Some(v) case None => Some("")
  {
    var ts := BodyTokens();
    assert ts[..2] == [Word("coalesce"), Symbol('(')] && ts[|ts| - 2] == Literal([]);
    assert ts[2..|ts| - 3] == [Word("body")];
    assert TextValue(row, [Word("body")]) == row.body;
  }

  lemma FilterPasses(db: Database, row: Row, f: TextFilter)
    ensures Passes(db, row, FilterCond(f)) <==> FilterHolds(db, row, f)
  {
    match f
    case BodyContains(text) => SearchPasses(db, row, text);
    case BodyRegex(pattern) =>
      BodyEval(row);
      LiteralEval(row, pattern);
      hide TextValue;
  }

  /** Only a search for parentheses is refused. */
  predicate Searchable(f: TextFilter) {
    f.BodyContains? ==> '(' !in f.term && ')' !in f.term
  }

  ghost predicate AllSearchable(fs: seq<TextFilter>) {
    forall i | 0 <= i < |fs| :: Searchable(fs[i])
  }

  ghost function FilterConds(fs: seq<TextFilter>): seq<Cond> {
    seq(|fs|, i requires 0 <= i < |fs| => FilterCond(fs[i]))
  }

  lemma {:induction false} FiltersLower(fs: seq<TextFilter>)
    ensures FilterClauses(fs).Ok? <==> AllSearchable(fs)
    ensures FilterClauses(fs).Ok? ==> AllMean(FilterClauses(fs).value, FilterConds(fs))
  {
    hide Means, TextClause, FilterCond, HasParens;
    if fs != [] {
      FiltersLower(fs[1..]);
      FilterMeans(fs[0]);
      hide FilterClause, Searchable;
      SearchableCons(fs);
      assert FilterConds(fs) == [FilterCond(fs[0])] + FilterConds(fs[1..]);
      if FilterClauses(fs).Ok? {
        MeanConcat([FilterClause(fs[0]).value], FilterClauses(fs[1..]).value, [FilterCond(fs[0])],
          FilterConds(fs[1..]));
      }
    }
  }

  lemma FilterMeans(f: TextFilter)
    ensures FilterClause(f).Ok? <==> Searchable(f)
    ensures FilterClause(f).Ok? ==> Means(FilterClause(f).value, FilterCond(f))
  {
    hide Means, SearchCond, Terms, ToUpper;
    match f
    case BodyContains(text) =>
      UpperKeepsParens(text);
      if !HasParens(ToUpper(text)) { SearchMeans(text); }
    case BodyRegex(pattern) => BodyRegexMeans(pattern);
  }

  lemma UpperKeepsParens(s: string)
    ensures HasParens(ToUpper(s)) <==> '(' in s || ')' in s
  {
    var upper := ToUpper(s);
    assert forall i | 0 <= i < |s| :: (upper[i] == '(' <==> s[i] == '(') && (upper[i] == ')' <==> s[i] == ')');
  }

  lemma SearchableCons(fs: seq<TextFilter>)
    requires fs != []
    ensures AllSearchable(fs) <==> Searchable(fs[0]) && AllSearchable(fs[1..])
  {
    hide Searchable;
    assert forall i | 0 <= i < |fs[1..]| :: fs[1..][i] == fs[i + 1];
    assert forall i | 1 <= i < |fs| :: fs[i] == fs[1..][i - 1];
  }

  lemma FiltersPass(db: Database, row: Row, fs: seq<TextFilter>)
    ensures AllPass(db, row, FilterConds(fs)) <==> FiltersHold(db, row, fs)
  {
    hide Passes, FilterCond, FilterHolds;
    forall i | 0 <= i < |fs| ensures Passes(db, row, FilterConds(fs)[i]) <==> FilterHolds(db, row, fs[i]) {
      FilterPasses(db, row, fs[i]);
    }
  }

  // ----- The whole condition -----

  /** The row is one the query asks for. */
  ghost predicate Wanted(db: Database, reg: Registry, plan: LogPlan, from: int, to: int, row: Row)
    requires ClosedRegistry(reg, Logs)
  {
    && InBounds(row, from, to)
    && MatchersHold(db, reg, row, plan.matchers)
    && FiltersHold(db, row, plan.textFilters)
  }

  ghost function AllConds(reg: Registry, plan: LogPlan, format: int -> string, from: int, to: int): seq<Cond>
    requires ClosedRegistry(reg, Logs)
  {
    [TimeCond(TIME, AtLeast, format(Millis(from))), TimeCond(TIME, Less, format(Millis(to)))]
      + AllMatcherConds(reg, plan.matchers) + FilterConds(plan.textFilters)
  }

  /** The time predicate is two conditions joined like the clauses are. */
  lemma TimeJoins(format: int -> string, from: int, to: int, rest: seq<string>)
    ensures Join([TimePredicate(TIME, format(Millis(from)), format(Millis(to)))] + rest, " AND ") ==
      Join([TimeFrom(TIME, format(Millis(from))), TimeTo(TIME, format(Millis(to)))] + rest, " AND ")
  {
    hide TimeFrom, TimeTo;
    var f, t := TimeFrom(TIME, format(Millis(from))), TimeTo(TIME, format(Millis(to)));
    assert ([TimePredicate(TIME, format(Millis(from)), format(Millis(to)))] + rest)[1..] == rest;
    assert ([f, t] + rest)[1..] == [t] + rest && ([t] + rest)[1..] == rest;
    if rest != [] {
      var later := Join(rest, " AND ");
      assert Join([t] + rest, " AND ") == t + " AND " + later;
      assert f + " AND " + (t + " AND " + later) == f + " AND " + t + " AND " + later;
    } else {
      assert Join([t] + rest, " AND ") == t;
    }
  }

  lemma WhereReads(reg: Registry, plan: LogPlan, format: int -> string, from: int, to: int)
    requires ClosedRegistry(reg, Logs) && WhereClauses(reg, plan, format, from, to).Ok?
    requires AllMean(AllMatcherClauses(reg, Logs, plan.matchers).value, AllMatcherConds(reg, plan.matchers))
    requires AllMean(FilterClauses(plan.textFilters).value, FilterConds(plan.textFilters))
    ensures var where := Join(WhereClauses(reg, plan, format, from, to).value, " AND ");
      && Condition(where) == Some(AndAll(AllConds(reg, plan, format, from, to)))
      && Lex(where).Some? && NoBraces(Lex(where).value)
  {
    hide Lex, NoBraces, Condition, AndAll, Means, Join, TimeFrom, TimeTo, TimePredicate, TimeCond, AllMatcherClauses,
      AllMatcherConds, FilterClauses, FilterConds;
    var ms, fs := AllMatcherClauses(reg, Logs, plan.matchers).value, FilterClauses(plan.textFilters).value;
    var mc, fc := AllMatcherConds(reg, plan.matchers), FilterConds(plan.textFilters);
    var time := [TimeFrom(TIME, format(Millis(from))), TimeTo(TIME, format(Millis(to)))];
    var tc := [TimeCond(TIME, AtLeast, format(Millis(from))), TimeCond(TIME, Less, format(Millis(to)))];
    TimeFromMeans(TIME, format(Millis(from)));
    TimeToMeans(TIME, format(Millis(to)));
    MeanConcat(time, ms, tc, mc);
    MeanConcat(time + ms, fs, tc + mc, fc);
    JoinedMeans(time + ms + fs, tc + mc + fc);
    TimeJoins(format, from, to, ms + fs);
    assert time + ms + fs == time + (ms + fs);
    var both := [TimePredicate(TIME, format(Millis(from)), format(Millis(to)))];
    assert both + ms + fs == both + (ms + fs);
  }

  lemma CondsPass(db: Database, reg: Registry, plan: LogPlan, format: int -> string, from: int, to: int, row: Row)
    requires Sane(db, format) && ClosedRegistry(reg, Logs)
    requires AllPass(db, row, AllMatcherConds(reg, plan.matchers)) <==> MatchersHold(db, reg, row, plan.matchers)
    ensures Passes(db, row, AndAll(AllConds(reg, plan, format, from, to))) <==>
      Wanted(db, reg, plan, from, to, row)
  {
    hide TimeCond, AllMatcherConds, FilterConds, MatchersHold, FiltersHold, InBounds, Eval, Sane;
    var tc := [TimeCond(TIME, AtLeast, format(Millis(from))), TimeCond(TIME, Less, format(Millis(to)))];
    var mc, fc := AllMatcherConds(reg, plan.matchers), FilterConds(plan.textFilters);
    PassesAll(db, row, tc + mc + fc);
    PassConcat(db, row, tc + mc, fc);
    PassConcat(db, row, tc, mc);
    TimePasses(db, format, row, from, to);
    FiltersPass(db, row, plan.textFilters);
    assert AllPass(db, row, tc) <==> Passes(db, row, tc[0]) && Passes(db, row, tc[1]);
  }

  /**
   Lowering succeeds exactly if every label has an expression and no text search has
   parentheses. Its joined clauses are then one condition, which is true of exactly the rows
   in the bounds, with all matchers and all text filters satisfied.
   */
  lemma LoweringPreservesMeaning(db: Database, reg: Registry, plan: LogPlan, format: int -> string, from: int,
                                 to: int, row: Row)
    requires Sane(db, format) && ClosedRegistry(reg, Logs)
    ensures WhereClauses(reg, plan, format, from, to).Ok? <==>
      AllLabelled(reg, plan.matchers) && AllSearchable(plan.textFilters)
    ensures WhereClauses(reg, plan, format, from, to).Ok? ==>
      var c := Condition(Join(WhereClauses(reg, plan, format, from, to).value, " AND "));
      c.Some? && (Passes(db, row, c.value) <==> Wanted(db, reg, plan, from, to, row))
  {
    hide Sane, Condition, Passes, Wanted, AndAll, AllConds, AllMean, AllPass, MatchersHold, AllMatcherClauses,
      FilterClauses, AllLabelled, AllSearchable, Join, TimePredicate;
    MatchersLower(db, format, reg, row, plan.matchers);
    FiltersLower(plan.textFilters);
    if WhereClauses(reg, plan, format, from, to).Ok? {
      WhereReads(reg, plan, format, from, to);
      CondsPass(db, reg, plan, format, from, to, row);
    }
  }

  /**
   Replacing `{prefix}` in the finished statement leaves the condition as it was exactly if
   no literal of it contains `{prefix}`, or it is replaced by itself.
   */
  lemma LiteralsDecideSurvival(db: Database, reg: Registry, plan: LogPlan, format: int -> string, from: int,
                               to: int, prefix: string)
    requires Sane(db, format) && ClosedRegistry(reg, Logs) && WhereClauses(reg, plan, format, from, to).Ok?
    ensures var where := Join(WhereClauses(reg, plan, format, from, to).value, " AND ");
      && Lex(where).Some?
      && (Replaced(where, PREFIX, prefix) == where <==> !LiteralWithPrefix(Lex(where).value) || prefix == PREFIX)
  {
    hide Lex, Replaced, LiteralWithPrefix, Sane, Condition, AllMatcherClauses, FilterClauses, Join, TimePredicate,
      AllMean, AllPass, MatchersHold, AllLabelled, AllSearchable;
    MatchersLower(db, format, reg, RowAt(0), plan.matchers);
    FiltersLower(plan.textFilters);
    WhereReads(reg, plan, format, from, to);
    TextSurvivesExactlyWhen(Join(WhereClauses(reg, plan, format, from, to).value, " AND "), prefix);
  }

  ghost function RowAt(time: int): Row {
    Row(_ => time, None, _ => None)
  }

  ghost predicate BoundsExact(from: int, to: int) {
    forall row: Row :: InBounds(row, from, to) <==> from <= row.times(TIME) < to
  }

  /** The bounds as written are the bounds asked for exactly if both are whole milliseconds or nothing fits. */
  lemma BoundsExactlyWhen(from: int, to: int)
    ensures BoundsExact(from, to) <==> (from % NANOS_PER_MILLI == 0 && to % NANOS_PER_MILLI == 0) || from >= to
  {
    var f, t := Millis(from) * NANOS_PER_MILLI, Millis(to) * NANOS_PER_MILLI;
    assert f <= from < f + NANOS_PER_MILLI && t <= to < t + NANOS_PER_MILLI;
    if BoundsExact(from, to) {
      assert InBounds(RowAt(f), from, to) <==> from <= f < to;
      assert InBounds(RowAt(from), from, to) <==> from < to;
      assert InBounds(RowAt(t), from, to) <==> from <= t < to;
    }
  }
}
