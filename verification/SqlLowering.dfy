/**
 Lowering of a log query to the clauses of its WHERE condition (`src/query/mod.rs`,
 `src/db/sql.rs`). Clauses are texts, joined by AND.
 */
module SqlLowering {
  import opened BasicTypes
  import opened Text
  import opened Labels
  import opened Selector
  import opened LogQuery
  import opened SqlText

  const NANOS_PER_MILLI := 1_000_000

  const PARENTHESES := "parentheses are not implemented"
  const UNSUPPORTED_LABEL := "unsupported label"

  /** Timestamps are written with three decimals; the rest is cut off. */
  function Millis(nanos: int): int {
    nanos / NANOS_PER_MILLI
  }

  // ----- Matchers -----

  function ValueExpr(expr: string): string {
    "coalesce(cast(" + expr + " AS VARCHAR), '')"
  }

  /** The clauses of one matcher: none if it cannot fail. */
  function MatcherClauses(expr: string, m: FieldMatcher): seq<string> {
    match m.op
    case Eq => [ValueExpr(expr) + " = " + Quote(m.value)]
    case NotEq => [ValueExpr(expr) + " != " + Quote(m.value)]
    case Regex => if m.value == ".*" then [] else ["regexp_matches(" + ValueExpr(expr) + ", " + Quote(m.value) + ")"]
    case NotRegex =>
      if m.value == ".*" then ["FALSE"] else ["NOT regexp_matches(" + ValueExpr(expr) + ", " + Quote(m.value) + ")"]
  }

  function AllMatcherClauses(reg: Registry, scope: Scope, ms: seq<FieldMatcher>): ParseResult<seq<string>> {
    if ms == [] then Ok([])
    else
      match LabelExpr(reg, scope, ms[0].field)
      case None => Err(UNSUPPORTED_LABEL)
      case Some(expr) =>
        match AllMatcherClauses(reg, scope, ms[1..])
        case Err(reason) => Err(reason)
        case Ok(later) => Ok(MatcherClauses(expr, ms[0]) + later)
  }

  method PushMatcher(reg: Registry, scope: Scope, whereSql: seq<string>, matcher: FieldMatcher)
    returns (r: ParseResult<seq<string>>)
    ensures r == match LabelExpr(reg, scope, matcher.field)
                 case None => Err(UNSUPPORTED_LABEL)
                 case Some(expr) => Ok(whereSql + MatcherClauses(expr, matcher))
  {
    var expr := LabelExpr(reg, scope, matcher.field);
    if expr.None? {
      return Err(UNSUPPORTED_LABEL);
    }
    var valueExpr := "coalesce(cast(" + expr.value + " AS VARCHAR), '')";
    var pushed := whereSql;
    assert whereSql + [] == whereSql;
    match matcher.op {
      case Eq => pushed := pushed + [valueExpr + " = " + Quote(matcher.value)];
      case NotEq => pushed := pushed + [valueExpr + " != " + Quote(matcher.value)];
      case Regex =>
        if matcher.value != ".*" {
          pushed := pushed + ["regexp_matches(" + valueExpr + ", " + Quote(matcher.value) + ")"];
        }
      case NotRegex =>
        if matcher.value == ".*" {
          pushed := pushed + ["FALSE"];
        } else {
          pushed := pushed + ["NOT regexp_matches(" + valueExpr + ", " + Quote(matcher.value) + ")"];
        }
    }
    return Ok(pushed);
  }

  // ----- Text search -----

  function UpperChar(c: char): char {
    if 'a' <= c <= 'z' then ((c as int) - 32) as char else c
  }

  /** Raising takes each small letter to its capital and leaves every other character alone. */
  lemma UpperKeepsPlace(c: char)
    ensures c in SMALL_LETTERS ==> UpperChar(c) in CAPITALS && UpperChar(c) as int - 'A' as int == c as int - 'a' as int
    ensures c !in SMALL_LETTERS ==> UpperChar(c) == c
  {
    SmallLettersAreListed(c);
    CapitalsAreListed(UpperChar(c));
    hide CAPITALS, SMALL_LETTERS;
  }

  function ToUpper(s: string): string {
    seq(|s|, i requires 0 <= i < |s| => UpperChar(s[i]))
  }

  predicate HasParens(s: string) {
    '(' in s || ')' in s
  }

  /** Disjunction is detected whatever its case. */
  predicate IsDisjunction(query: string) {
    Contains(ToUpper(query), " OR ")
  }

  function Operator(query: string): string {
    if IsDisjunction(query) then " OR " else " AND "
  }

  /** The terms are the parts that are not blank, without the white space around them. */
  lemma {:induction false} TermsAreParts(parts: seq<string>, term: string)
    ensures term in NonBlank(parts) <==> term != [] && exists i | 0 <= i < |parts| :: Trim(parts[i]) == term
  {
    hide Trim;
    if parts != [] {
      TermsAreParts(parts[1..], term);
      if exists i | 0 <= i < |parts| :: Trim(parts[i]) == term {
        var i :| 0 <= i < |parts| && Trim(parts[i]) == term;
        assert i > 0 ==> parts[1..][i - 1] == parts[i];
      }
      if exists i | 0 <= i < |parts[1..]| :: Trim(parts[1..][i]) == term {
        var i :| 0 <= i < |parts[1..]| && Trim(parts[1..][i]) == term;
        assert parts[i + 1] == parts[1..][i];
      }
    }
  }

  function NonBlank(parts: seq<string>): (terms: seq<string>)
    ensures forall i | 0 <= i < |terms| :: terms[i] != []
  {
    if parts == [] then []
    else (if Trim(parts[0]) == [] then [] else [Trim(parts[0])]) + NonBlank(parts[1..])
  }

  /** The query is split at the operator only where it is written in capitals. */
  function Terms(query: string): seq<string> {
    NonBlank(SplitAll(query, Operator(query)))
  }

  function TermClause(column: string, term: string): string {
    column + " ILIKE " + Quote("%" + term + "%")
  }

  function TermClauses(column: string, terms: seq<string>): seq<string> {
    seq(|terms|, i requires 0 <= i < |terms| => TermClause(column, terms[i]))
  }

  function TextClause(column: string, query: string): ParseResult<string> {
    if HasParens(ToUpper(query)) then Err(PARENTHESES)
    else
      var clauses := TermClauses(column, Terms(query));
      if clauses == [] then Ok("TRUE") else Ok("(" + Join(clauses, Operator(query)) + ")")
  }

  lemma {:induction false} NonBlankConcat(a: seq<string>, b: seq<string>)
    ensures NonBlank(a + b) == NonBlank(a) + NonBlank(b)
  {
    if a == [] {
      assert a + b == b;
    } else {
      assert (a + b)[1..] == a[1..] + b;
      NonBlankConcat(a[1..], b);
    }
  }

  method TextTerms(column: string, query: string) returns (r: ParseResult<string>)
    ensures r == TextClause(column, query)
  {
    hide Trim, IsDisjunction;
    var upper := ToUpper(query);
    if '(' in upper || ')' in upper {
      return Err(PARENTHESES);
    }
    var op := Operator(query);
    var parts := SplitAll(query, op);
    var clauses: seq<string> := [];
    for i := 0 to |parts|
      invariant clauses == TermClauses(column, NonBlank(parts[..i]))
    {
      assert parts[..i + 1] == parts[..i] + [parts[i]];
      NonBlankConcat(parts[..i], [parts[i]]);
      assert NonBlank([parts[i]]) == if Trim(parts[i]) == [] then [] else [Trim(parts[i])];
      var term := Trim(parts[i]);
      if term != [] {
        clauses := clauses + [column + " ILIKE " + Quote("%" + term + "%")];
      }
    }
    assert parts[..|parts|] == parts;
    if clauses == [] {
      return Ok("TRUE");
    }
    return Ok("(" + Join(clauses, op) + ")");
  }

  // ----- The whole condition -----

  function FilterClause(f: TextFilter): ParseResult<string> {
    match f
    case BodyContains(text) => TextClause("body", text)
    case BodyRegex(pattern) => Ok("regexp_matches(coalesce(body, ''), " + Quote(pattern) + ")")
  }

  function FilterClauses(fs: seq<TextFilter>): ParseResult<seq<string>> {
    if fs == [] then Ok([])
    else
      match FilterClause(fs[0])
      case Err(reason) => Err(reason)
      case Ok(clause) =>
        match FilterClauses(fs[1..])
        case Err(reason) => Err(reason)
        case Ok(later) => Ok([clause] + later)
  }

  /** The clauses in order; `format` writes a number of milliseconds as a calendar time. */
  function WhereClauses(reg: Registry, plan: LogPlan, format: int -> string, from: int,
                        to: int): ParseResult<seq<string>> {
    match AllMatcherClauses(reg, Logs, plan.matchers)
    case Err(reason) => Err(reason)
    case Ok(matchers) =>
      match FilterClauses(plan.textFilters)
      case Err(reason) => Err(reason)
      case Ok(filters) =>
        Ok([TimePredicate("time_unix_nano", format(Millis(from)), format(Millis(to)))] + matchers + filters)
  }

  function After(before: seq<string>, r: ParseResult<seq<string>>): ParseResult<seq<string>> {
    match r case Err(reason) => Err(reason) case Ok(clauses) => Ok(before + clauses)
  }

  method LogWhereSql(reg: Registry, plan: LogPlan, format: int -> string, from: int, to: int)
    returns (r: ParseResult<seq<string>>)
    ensures r == WhereClauses(reg, plan, format, from, to)
  {
    hide LabelExpr, MatcherClauses, TextClause, TimePredicate, Quote;
    var time := [TimePredicate("time_unix_nano", format(Millis(from)), format(Millis(to)))];
    var whereSql := time;
    var ms := plan.matchers;
    assert ms[0..] == ms;
    for i := 0 to |ms|
      invariant After(time, AllMatcherClauses(reg, Logs, ms)) == After(whereSql, AllMatcherClauses(reg, Logs, ms[i..]))
    {
      assert ms[i..][0] == ms[i] && ms[i..][1..] == ms[i + 1..];
      var pushed := PushMatcher(reg, Logs, whereSql, ms[i]);
      if pushed.Err? {
        return Err(pushed.reason);
      }
      var expr := LabelExpr(reg, Logs, ms[i].field);
      AfterTwice(whereSql, MatcherClauses(expr.value, ms[i]), AllMatcherClauses(reg, Logs, ms[i + 1..]));
      whereSql := pushed.value;
    }
    assert whereSql + [] == whereSql;
    assert After(time, AllMatcherClauses(reg, Logs, ms)) == Ok(whereSql);
    var fs := plan.textFilters;
    ghost var before := whereSql;
    assert fs[0..] == fs;
    for i := 0 to |fs|
      invariant After(before, FilterClauses(fs)) == After(whereSql, FilterClauses(fs[i..]))
    {
      assert fs[i..][0] == fs[i] && fs[i..][1..] == fs[i + 1..];
      var clause: ParseResult<string>;
      match fs[i] {
        case BodyContains(text) => clause := TextTerms("body", text);
        case BodyRegex(pattern) => clause := Ok("regexp_matches(coalesce(body, ''), " + Quote(pattern) + ")");
      }
      if clause.Err? {
        return Err(clause.reason);
      }
      AfterTwice(whereSql, [clause.value], FilterClauses(fs[i + 1..]));
      whereSql := whereSql + [clause.value];
    }
    assert whereSql + [] == whereSql;
    return Ok(whereSql);
  }

  lemma AfterTwice(before: seq<string>, next: seq<string>, r: ParseResult<seq<string>>)
    ensures After(before, After(next, r)) == After(before + next, r)
  {
    assert r.Ok? ==> before + (next + r.value) == before + next + r.value;
  }
}
