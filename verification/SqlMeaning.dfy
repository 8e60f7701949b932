/**
 The lowered condition of a log query, read back from its text and evaluated in three-valued
 logic, keeps exactly the rows the query asks for.
 */
module SqlMeaning {
  import opened BasicTypes
  import opened Text
  import opened Labels
  import opened Selector
  import opened LogQuery
  import opened Parens
  import opened SqlText
  import opened SqlCondition
  import opened SqlLowering

  const TIME := "time_unix_nano"

  // ----- What the query asks for -----

  /** A label expression is a text of its own: its literals and parentheses are closed, and it has no braces. */
  ghost predicate Closed(expr: string) {
    Lex(expr).Some? && Balanced(Skeleton(Lex(expr).value)) && NoBraces(Lex(expr).value)
  }

  ghost predicate NoBraces(ts: seq<Token>) {
    Symbol('{') !in ts
  }

  ghost predicate ClosedRegistry(reg: Registry, scope: Scope) {
    forall name | LabelExpr(reg, scope, name).Some? :: Closed(LabelExpr(reg, scope, name).value)
  }

  /** A missing label reads as the empty text. */
  ghost function LabelText(row: Row, expr: string): string
    requires Closed(expr)
  {
    match row.labels(Lex(expr).value) case Some(v) => v case None => ""
  }

  ghost predicate MatcherHolds(db: Database, row: Row, expr: string, m: FieldMatcher)
    requires Closed(expr)
  {
    match m.op
    case Eq => LabelText(row, expr) == m.value
    case NotEq => LabelText(row, expr) != m.value
    case Regex => db.matches(LabelText(row, expr), m.value)
    case NotRegex => !db.matches(LabelText(row, expr), m.value)
  }

  ghost predicate MatchersHold(db: Database, reg: Registry, row: Row, ms: seq<FieldMatcher>)
    requires ClosedRegistry(reg, Logs)
  {
    forall i | 0 <= i < |ms| && LabelExpr(reg, Logs, ms[i].field).Some? ::
      MatcherHolds(db, row, LabelExpr(reg, Logs, ms[i].field).value, ms[i])
  }

  ghost predicate TermFound(body: string, term: string) {
    LikeMatches(ToLower(body), ToLower("%" + term + "%"))
  }

  /** The word `or` between spaces, in any case. */
  ghost predicate SaysOr(text: string) {
    exists i: nat :: OrAt(text, i)
  }

  predicate OrAt(text: string, i: nat) {
    i + 4 <= |text| && text[i] == ' ' && text[i + 1] in {'o', 'O'} && text[i + 2] in {'r', 'R'} && text[i + 3] == ' '
  }

  /** The texts between the operators; these are seen only in capitals. */
  ghost function SearchParts(query: string): seq<string> {
    SplitAll(query, if SaysOr(query) then " OR " else " AND ")
  }

  ghost predicate PartFound(row: Row, part: string) {
    row.body.Some? && TermFound(row.body.value, Trim(part))
  }

  /** A search for nothing finds every row; any other finds some or all of its parts that are not blank. */
  ghost predicate SearchHolds(row: Row, query: string) {
    var parts := SearchParts(query);
    || (forall i | 0 <= i < |parts| :: Trim(parts[i]) == [])
    || if SaysOr(query) then exists i | 0 <= i < |parts| :: Trim(parts[i]) != [] && PartFound(row, parts[i])
       else forall i | 0 <= i < |parts| && Trim(parts[i]) != [] :: PartFound(row, parts[i])
  }

  ghost predicate FilterHolds(db: Database, row: Row, f: TextFilter) {
    match f
    case BodyContains(text) => SearchHolds(row, text)
    case BodyRegex(pattern) => db.matches(if row.body.Some? then row.body.value else "", pattern)
  }

  ghost predicate FiltersHold(db: Database, row: Row, fs: seq<TextFilter>) {
    forall i | 0 <= i < |fs| :: FilterHolds(db, row, fs[i])
  }

  /** The half-open interval between the bounds, as they are written. */
  ghost predicate InBounds(row: Row, from: int, to: int) {
    Millis(from) * NANOS_PER_MILLI <= row.times(TIME) < Millis(to) * NANOS_PER_MILLI
  }

  /** Partial matching finds `.*` in every text, and a written time is read back. */
  ghost predicate Sane(db: Database, format: int -> string) {
    && (forall s :: db.matches(s, ".*"))
    && (forall ms :: db.timestamp(format(ms)) == ms * NANOS_PER_MILLI)
  }

  // ----- Texts that are one condition -----

  ghost predicate Means(text: string, c: Cond) {
    Lex(text).Some? && NoBraces(Lex(text).value) && ReadsAs(Lex(text).value, c)
  }

  ghost predicate AllMean(texts: seq<string>, cs: seq<Cond>) {
    |texts| == |cs| && forall i | 0 <= i < |cs| :: Means(texts[i], cs[i])
  }

  ghost function Lexed(texts: seq<string>): seq<seq<Token>>
    requires forall i | 0 <= i < |texts| :: Lex(texts[i]).Some?
  {
    seq(|texts|, i requires 0 <= i < |texts| => Lex(texts[i]).value)
  }

  /** Texts joined by a spaced word lex to their tokens joined by that word. */
  lemma {:induction false} JoinLexes(texts: seq<string>, word: string)
    requires texts != [] && forall i | 0 <= i < |texts| :: Lex(texts[i]).Some?
    requires word == "AND" || word == "OR"
    ensures Lex(Join(texts, " " + word + " ")) == Some(JoinTokens(Lexed(texts), Word(word)))
    decreases |texts|
  {
    hide Lex;
    var sep := " " + word + " ";
    if |texts| > 1 {
      var rest := Join(texts[1..], sep);
      JoinLexes(texts[1..], word);
      assert Lexed(texts)[1..] == Lexed(texts[1..]);
      assert Join(texts, sep) == texts[0] + (" " + (word + (" " + rest)));
      LexConcat(texts[0], " " + (word + (" " + rest)));
      SpaceLexes(word + (" " + rest));
      WordLexes(word, " " + rest);
      SpaceLexes(rest);
      var later := JoinTokens(Lexed(texts[1..]), Word(word));
      assert Lex(" " + (word + (" " + rest))) == Some([Word(word)] + later);
      assert Lexed(texts)[0] + ([Word(word)] + later) == Lexed(texts)[0] + [Word(word)] + later;
    }
  }

  lemma {:induction false} JoinedNoBraces(units: seq<seq<Token>>, word: string)
    requires forall i | 0 <= i < |units| :: NoBraces(units[i])
    ensures NoBraces(JoinTokens(units, Word(word)))
    decreases |units|
  {
    if |units| > 1 {
      JoinedNoBraces(units[1..], word);
    }
  }

  /** Conditions joined by AND are their conjunction. */
  lemma JoinedMeans(texts: seq<string>, cs: seq<Cond>)
    requires AllMean(texts, cs) && cs != []
    ensures Condition(Join(texts, " AND ")) == Some(AndAll(cs))
    ensures var where := Join(texts, " AND "); Lex(where).Some? && NoBraces(Lex(where).value)
  {
    hide Lex, ReadsAs, ParseAnd, AndAll, NoBraces;
    JoinedNoBraces(Lexed(texts), "AND");
    JoinLexes(texts, "AND");
    AndReads(Lexed(texts), cs, []);
    var ts := JoinTokens(Lexed(texts), Word("AND"));
    assert ts + [] == ts;
    LoneAnd(ts);
    assert " " + "AND" + " " == " AND ";
  }

  /** A parenthesized group is one condition, joined by either word. */
  lemma GroupMeans(texts: seq<string>, cs: seq<Cond>, disjunction: bool)
    requires AllMean(texts, cs) && cs != []
    ensures Means("(" + Join(texts, if disjunction then " OR " else " AND ") + ")",
      if disjunction then OrAll(cs) else AndAll(cs))
  {
    hide Lex, ReadsAs, ParseAnd, ParseOr, AndAll, OrAll;
    var word := if disjunction then "OR" else "AND";
    var inner, ts := Join(texts, " " + word + " "), JoinTokens(Lexed(texts), Word(word));
    JoinLexes(texts, word);
    assert NoBraces([Symbol('(')] + ts + [Symbol(')')]) by { JoinedNoBraces(Lexed(texts), word); }
    hide NoBraces;
    SymbolLexes('(', inner + ")");
    SymbolLexes(')', []);
    assert Lex([]) == Some([]) by { EmptyLexes(); }
    assert "(" + inner + ")" == ['('] + (inner + ")") && [')'] + [] == ")";
    LexConcat(inner, ")");
    assert [Symbol(')')] + [] == [Symbol(')')];
    assert Lex(")") == Some([Symbol(')')]);
    assert Lex(inner + ")") == Some(ts + [Symbol(')')]);
    assert [Symbol('(')] + (ts + [Symbol(')')]) == [Symbol('(')] + ts + [Symbol(')')];
    assert Lex("(" + inner + ")") == Some([Symbol('(')] + ts + [Symbol(')')]);
    var c := if disjunction then OrAll(cs) else AndAll(cs);
    forall rest | rest != [] && rest[0] == Symbol(')') ensures ParseOr(ts + rest) == Some((c, rest)) {
      if disjunction {
        OrReads(Lexed(texts), cs, rest);
      } else {
        AndReads(Lexed(texts), cs, rest);
        LoneAnd(ts + rest);
      }
    }
    GroupReads(ts, c);
    assert " " + word + " " == if disjunction then " OR " else " AND ";
  }

  lemma EmptyLexes()
    ensures Lex([]) == Some([])
  {
  }

  lemma LoneAnd(ts: seq<Token>)
    requires ParseAnd(ts).Some? && !([Word("OR")] <= ParseAnd(ts).value.1)
    ensures ParseOr(ts) == ParseAnd(ts)
  {
    hide ParseAnd;
  }

  // ----- The texts of operands -----

  ghost function ValueTokens(e: seq<Token>): seq<Token> {
    [Word("coalesce"), Symbol('('), Word("cast"), Symbol('(')] + e + ValueEnd()
  }

  ghost function ValueEnd(): seq<Token> {
    [Word("AS"), Word("VARCHAR"), Symbol(')'), Symbol(','), Literal([]), Symbol(')')]
  }

  /** A text starts with a token, and the rest of it lexes to the rest. */
  lemma StartLexes()
    ensures Lex("coalesce(cast(") == Some([Word("coalesce"), Symbol('('), Word("cast"), Symbol('(')])
  {
    hide Lex;
    EmptyLexes();
    SymbolLexes('(', "");
    assert ['('] + "" == "(";
    WordLexes("cast", "(");
    assert "cast" + "(" == "cast(";
    SymbolLexes('(', "cast(");
    assert ['('] + "cast(" == "(cast(";
    WordLexes("coalesce", "(cast(");
    assert "coalesce" + "(cast(" == "coalesce(cast(";
    assert [Word("coalesce")] + ([Symbol('(')] + ([Word("cast")] + ([Symbol('(')] + []))) ==
      [Word("coalesce"), Symbol('('), Word("cast"), Symbol('(')];
  }

  lemma DefaultLexes()
    ensures Lex(", '')") == Some([Symbol(','), Literal([]), Symbol(')')])
  {
    hide Lex;
    EmptyLexes();
    SymbolLexes(')', "");
    assert [')'] + "" == ")";
    QuoteLexes([], ")");
    assert Quote([]) + ")" == "'')";
    SpaceLexes("'')");
    assert " " + "'')" == " '')";
    SymbolLexes(',', " '')");
    assert [','] + " '')" == ", '')";
    assert [Symbol(',')] + ([Literal([])] + ([Symbol(')')] + [])) == [Symbol(','), Literal([]), Symbol(')')];
  }

  lemma CastEndLexes()
    ensures Lex("VARCHAR), '')") == Some([Word("VARCHAR"), Symbol(')'), Symbol(','), Literal([]), Symbol(')')])
  {
    hide Lex;
    DefaultLexes();
    SymbolLexes(')', ", '')");
    assert [')'] + ", '')" == "), '')";
    WordLexes("VARCHAR", "), '')");
    assert "VARCHAR" + "), '')" == "VARCHAR), '')";
    assert [Word("VARCHAR")] + ([Symbol(')')] + [Symbol(','), Literal([]), Symbol(')')]) ==
      [Word("VARCHAR"), Symbol(')'), Symbol(','), Literal([]), Symbol(')')];
  }

  /** A word between spaces is that word. */
  lemma SpacedWordLexes(w: string)
    requires w != [] && forall i | 0 <= i < |w| :: IsWordChar(w[i])
    ensures Lex(" " + w + " ") == Some([Word(w)])
  {
    hide Lex;
    EmptyLexes();
    SpaceLexes("");
    assert " " + "" == " ";
    WordLexes(w, " ");
    SpaceLexes(w + " ");
    assert " " + w + " " == " " + (w + " ");
    assert [Word(w)] + [] == [Word(w)];
  }

  lemma EndLexes()
    ensures Lex(" AS VARCHAR), '')") == Some(ValueEnd())
  {
    hide Lex;
    CastEndLexes();
    SpacedWordLexes("AS");
    LexConcat(" " + "AS" + " ", "VARCHAR), '')");
    assert " " + "AS" + " " + "VARCHAR), '')" == " AS VARCHAR), '')";
    assert [Word("AS")] + [Word("VARCHAR"), Symbol(')'), Symbol(','), Literal([]), Symbol(')')] == ValueEnd();
  }

  lemma OperandNoBraces(e: seq<Token>, pattern: string)
    requires NoBraces(e)
    ensures NoBraces(ValueTokens(e)) && NoBraces(MatchesTokens(e, pattern))
  {
  }

  lemma ValueLexes(expr: string)
    requires Closed(expr)
    ensures Lex(ValueExpr(expr)) == Some(ValueTokens(Lex(expr).value))
  {
    hide Lex;
    StartLexes();
    EndLexes();
    LexConcat(expr, " AS VARCHAR), '')");
    LexConcat("coalesce(cast(", expr + " AS VARCHAR), '')");
    assert ValueExpr(expr) == "coalesce(cast(" + (expr + " AS VARCHAR), '')");
    var e := Lex(expr).value;
    var start := [Word("coalesce"), Symbol('('), Word("cast"), Symbol('(')];
    assert start + (e + ValueEnd()) == start + e + ValueEnd();
  }

  lemma BodyValueLexes()
    ensures Lex("coalesce(body, '')") == Some(BodyTokens())
  {
    hide Lex;
    DefaultLexes();
    WordLexes("body", ", '')");
    assert "body" + ", '')" == "body, '')";
    SymbolLexes('(', "body, '')");
    assert ['('] + "body, '')" == "(body, '')";
    WordLexes("coalesce", "(body, '')");
    assert "coalesce" + "(body, '')" == "coalesce(body, '')";
    assert [Word("coalesce")] + ([Symbol('(')] + ([Word("body")] + [Symbol(','), Literal([]), Symbol(')')])) ==
      BodyTokens();
  }

  ghost function BodyTokens(): seq<Token> {
    [Word("coalesce"), Symbol('('), Word("body"), Symbol(','), Literal([]), Symbol(')')]
  }

  // ----- Parsing operands -----

  lemma SkeletonConcat(a: seq<Token>, b: seq<Token>)
    ensures Skeleton(a + b) == Skeleton(a) + Skeleton(b)
  {
  }

  /** A call whose arguments are balanced is an operand, whatever follows. */
  lemma CallParses(name: string, args: seq<Token>, rest: seq<Token>)
    requires Balanced(Skeleton(args))
    ensures var call := [Word(name), Symbol('(')] + args + [Symbol(')')];
      ParseOperand(call + rest) == Some((call, rest))
  {
    var call := [Word(name), Symbol('(')] + args + [Symbol(')')];
    var ts, inner := call + rest, args + [Symbol(')')] + rest;
    assert ts[2..] == inner;
    assert Skeleton(inner) == Skeleton(args) + ")" + Skeleton(rest);
    CloseAfter(1, Skeleton(args), Skeleton(rest));
    hide CloseFrom, Skeleton, DepthAfter;
    assert ts[..|args| + 3] == call && ts[|args| + 3..] == rest;
  }

  lemma ValueBalanced(e: seq<Token>)
    requires Balanced(Skeleton(e))
    ensures Balanced(Skeleton([Word("cast"), Symbol('(')] + e + ValueEnd()[..5]))
  {
    var args := [Word("cast"), Symbol('(')] + e + ValueEnd()[..5];
    NoParensBalanced(1, " ");
    NoParensBalanced(1, "  ");
    hide DepthAfter;
    BalancedConcat(Skeleton(e), "  ");
    BalancedWrapped(Skeleton(e) + "  ");
    BalancedConcat(" ", "(" + (Skeleton(e) + "  ") + ")");
    BalancedConcat(" " + ("(" + (Skeleton(e) + "  ") + ")"), "  ");
    assert Skeleton(args) == " " + ("(" + (Skeleton(e) + "  ") + ")") + "  ";
  }

  lemma ValueParses(e: seq<Token>, rest: seq<Token>)
    requires Balanced(Skeleton(e))
    ensures ParseOperand(ValueTokens(e) + rest) == Some((ValueTokens(e), rest))
  {
    hide Skeleton, ParseOperand, DepthAfter;
    var args := [Word("cast"), Symbol('(')] + e + ValueEnd()[..5];
    ValueBalanced(e);
    CallParses("coalesce", args, rest);
    assert ValueTokens(e) == [Word("coalesce"), Symbol('(')] + args + [Symbol(')')];
  }

  lemma BodyValueParses(rest: seq<Token>)
    ensures ParseOperand(BodyTokens() + rest) == Some((BodyTokens(), rest))
  {
    var args := [Word("body"), Symbol(','), Literal([])];
    NoParensBalanced(1, Skeleton(args));
    hide Skeleton, ParseOperand, DepthAfter;
    CallParses("coalesce", args, rest);
    assert BodyTokens() == [Word("coalesce"), Symbol('(')] + args + [Symbol(')')];
  }

  // ----- Single conditions -----

  /** What a comparison's left side may start with: no word that starts another kind of condition. */
  predicate StartsOperand(ts: seq<Token>) {
    ts != [] && ts[0].Word? && ts[0].text !in {"NOT", "TRUE", "FALSE", "regexp_matches"}
  }

  lemma CompareIsUnit(ts: seq<Token>)
    requires StartsOperand(ts)
    ensures ParseNot(ts) == ParseCompare(ts)
  {
    hide ParseCompare, ParseOr;
  }

  function OpTokens(op: Comparison): seq<Token> {
    match op
    case Equal => [Symbol('=')]
    case NotEqual => [Symbol('!'), Symbol('=')]
    case AtLeast => [Symbol('>'), Symbol('=')]
    case Less => [Symbol('<')]
    case Like => [Word("ILIKE")]
  }

  lemma OpParses(op: Comparison, rest: seq<Token>)
    requires rest != [] && !rest[0].Symbol?
    ensures ParseComparison(OpTokens(op) + rest) == Some((op, rest))
  {
    var ts := OpTokens(op) + rest;
    assert ts[|OpTokens(op)|..] == rest;
    assert ts[0] == OpTokens(op)[0];
    assert ts[..|OpTokens(op)|] == OpTokens(op);
  }

  /** A literal, with a type name before it or not. */
  predicate IsLiteralOperand(ts: seq<Token>) {
    (|ts| == 1 && ts[0].Literal?) || (|ts| == 2 && ts[0].Word? && ts[1].Literal?)
  }

  lemma LiteralParses(ts: seq<Token>, rest: seq<Token>)
    requires IsLiteralOperand(ts)
    ensures ParseOperand(ts + rest) == Some((ts, rest))
  {
    var all := ts + rest;
    assert all[..|ts|] == ts && all[|ts|..] == rest;
    assert all[0] == ts[0] && (|ts| == 2 ==> all[1] == ts[1]);
  }

  lemma CompareParses(left: seq<Token>, op: Comparison, right: seq<Token>, rest: seq<Token>)
    requires StartsOperand(left) && IsLiteralOperand(right)
    requires ParseOperand(left + (OpTokens(op) + (right + rest))) == Some((left, OpTokens(op) + (right + rest)))
    ensures ParseNot(left + OpTokens(op) + right + rest) == Some((Compare(op, left, right), rest))
  {
    hide ParseOperand, ParseComparison, ParseNot, OpTokens;
    OpParses(op, right + rest);
    OpIsNoOpening(op, right + rest);
    LiteralParses(right, rest);
    var ts := left + OpTokens(op) + right + rest;
    assert ts == left + (OpTokens(op) + (right + rest));
    assert ts[0] == left[0];
    CompareIsUnit(ts);
  }

  lemma ColumnParses(column: string, rest: seq<Token>)
    requires rest != [] && !(rest[0] == Symbol('(')) && !rest[0].Literal?
    ensures ParseOperand([Word(column)] + rest) == Some(([Word(column)], rest))
  {
    var ts := [Word(column)] + rest;
    assert ts[..1] == [Word(column)] && ts[1..] == rest;
  }

  lemma OpIsNoOpening(op: Comparison, rest: seq<Token>)
    ensures var ts := OpTokens(op) + rest;
      ts != [] && ts[0] != Symbol('(') && !ts[0].Literal? && ts[0] !in {Word("IN"), Word("IS")}
  {
  }

  lemma ColumnCompareReads(column: string, op: Comparison, right: seq<Token>)
    requires column !in {"NOT", "TRUE", "FALSE", "regexp_matches"} && IsLiteralOperand(right)
    ensures ReadsAs([Word(column)] + OpTokens(op) + right, Compare(op, [Word(column)], right))
  {
    var ts := [Word(column)] + OpTokens(op) + right;
    forall rest | EndsUnit(rest) ensures ParseNot(ts + rest) == Some((Compare(op, [Word(column)], right), rest)) {
      hide ParseOperand, ParseNot;
      OpIsNoOpening(op, right + rest);
      ColumnParses(column, OpTokens(op) + (right + rest));
      CompareParses([Word(column)], op, right, rest);
    }
  }

  lemma ValueCompareReads(e: seq<Token>, op: Comparison, right: seq<Token>)
    requires Balanced(Skeleton(e)) && IsLiteralOperand(right)
    ensures ReadsAs(ValueTokens(e) + OpTokens(op) + right, Compare(op, ValueTokens(e), right))
  {
    var ts := ValueTokens(e) + OpTokens(op) + right;
    forall rest | EndsUnit(rest) ensures ParseNot(ts + rest) == Some((Compare(op, ValueTokens(e), right), rest)) {
      hide ParseOperand, ParseNot;
      ValueParses(e, OpTokens(op) + (right + rest));
      CompareParses(ValueTokens(e), op, right, rest);
    }
  }

  lemma MatchesParses(left: seq<Token>, pattern: string, rest: seq<Token>)
    requires ParseOperand(left + (MatchesEnd(pattern) + rest)) == Some((left, MatchesEnd(pattern) + rest))
    ensures ParseNot(MatchesTokens(left, pattern) + rest) == Some((Matches(left, [Literal(pattern)]), rest))
    ensures ParseNot([Word("NOT")] + MatchesTokens(left, pattern) + rest) ==
      Some((Not(Matches(left, [Literal(pattern)])), rest))
  {
    hide ParseOperand, ParseOr;
    var ts := MatchesTokens(left, pattern) + rest;
    var end := MatchesEnd(pattern) + rest;
    assert ts[..2] == [Word("regexp_matches"), Symbol('(')];
    assert ts[2..] == left + end;
    assert end[1..] == [Literal(pattern)] + ([Symbol(')')] + rest);
    LiteralParses([Literal(pattern)], [Symbol(')')] + rest);
    assert ([Symbol(')')] + rest)[1..] == rest;
    assert ParseMatches(ts[2..]) == Some((Matches(left, [Literal(pattern)]), rest));
    var negated := [Word("NOT")] + MatchesTokens(left, pattern) + rest;
    assert negated[0] == Word("NOT") && negated[1..] == ts;
  }

  ghost function MatchesEnd(pattern: string): seq<Token> {
    [Symbol(','), Literal(pattern), Symbol(')')]
  }

  ghost function MatchesTokens(left: seq<Token>, pattern: string): seq<Token> {
    [Word("regexp_matches"), Symbol('(')] + left + MatchesEnd(pattern)
  }

  lemma ConstantReads(b: bool)
    ensures ReadsAs([Word(if b then "TRUE" else "FALSE")], Constant(b))
  {
    var ts := [Word(if b then "TRUE" else "FALSE")];
    forall rest | EndsUnit(rest) ensures ParseNot(ts + rest) == Some((Constant(b), rest)) {
      hide ParseOr, ParseCompare, ParseMatches;
      assert (ts + rest)[1..] == rest && (ts + rest)[0] == ts[0];
    }
  }

  // ----- The texts of conditions -----

  lemma LoneQuoteLexes(value: string)
    ensures Lex(Quote(value)) == Some([Literal(value)])
  {
    QuoteLexes(value, "");
    assert Quote(value) + "" == Quote(value);
    assert [Literal(value)] + [] == [Literal(value)];
  }

  /** An operator between spaces, before a quoted literal. */
  lemma EqualsLexes(value: string)
    ensures Lex(" = " + Quote(value)) == Some([Symbol('='), Literal(value)])
  {
    hide Lex, Quote;
    LoneQuoteLexes(value);
    SpaceLexes(Quote(value));
    SymbolLexes('=', " " + Quote(value));
    SpaceLexes(['='] + (" " + Quote(value)));
    assert " " + (['='] + (" " + Quote(value))) == " = " + Quote(value);
    assert [Symbol('=')] + [Literal(value)] == [Symbol('='), Literal(value)];
  }

  lemma DiffersLexes(value: string)
    ensures Lex(" != " + Quote(value)) == Some([Symbol('!'), Symbol('='), Literal(value)])
  {
    hide Lex, Quote;
    LoneQuoteLexes(value);
    SpaceLexes(Quote(value));
    SymbolLexes('=', " " + Quote(value));
    SymbolLexes('!', ['='] + (" " + Quote(value)));
    SpaceLexes(['!'] + (['='] + (" " + Quote(value))));
    assert " " + (['!'] + (['='] + (" " + Quote(value)))) == " != " + Quote(value);
    assert [Symbol('!')] + ([Symbol('=')] + [Literal(value)]) == [Symbol('!'), Symbol('='), Literal(value)];
  }

  /** `regexp_matches` of an operand's text and a quoted pattern. */
  lemma MatchesLexes(operand: string, left: seq<Token>, pattern: string)
    requires Lex(operand) == Some(left)
    ensures Lex("regexp_matches(" + operand + ", " + Quote(pattern) + ")") == Some(MatchesTokens(left, pattern))
  {
    hide Lex, Quote;
    var end := ", " + Quote(pattern) + ")";
    MatchesEndLexes(pattern);
    LexConcat(operand, end);
    SymbolLexes('(', operand + end);
    WordLexes("regexp_matches", ['('] + (operand + end));
    assert "regexp_matches" + (['('] + (operand + end)) == "regexp_matches(" + operand + ", " + Quote(pattern) + ")";
    assert [Word("regexp_matches")] + ([Symbol('(')] + (left + MatchesEnd(pattern))) == MatchesTokens(left, pattern);
  }

  lemma MatchesEndLexes(pattern: string)
    ensures Lex(", " + Quote(pattern) + ")") == Some(MatchesEnd(pattern))
  {
    hide Lex, Quote;
    EmptyLexes();
    SymbolLexes(')', "");
    assert [')'] + "" == ")";
    QuoteLexes(pattern, ")");
    SpaceLexes(Quote(pattern) + ")");
    SymbolLexes(',', " " + (Quote(pattern) + ")"));
    assert [','] + (" " + (Quote(pattern) + ")")) == ", " + Quote(pattern) + ")";
    assert [Symbol(',')] + ([Literal(pattern)] + ([Symbol(')')] + [])) == MatchesEnd(pattern);
  }

  lemma NotLexes(text: string, ts: seq<Token>)
    requires Lex(text) == Some(ts)
    ensures Lex("NOT " + text) == Some([Word("NOT")] + ts)
  {
    hide Lex;
    SpaceLexes(text);
    WordLexes("NOT", " " + text);
    assert "NOT" + (" " + text) == "NOT " + text;
  }

  lemma WordAloneLexes(w: string)
    requires w != [] && forall i | 0 <= i < |w| :: IsWordChar(w[i])
    ensures Lex(w) == Some([Word(w)])
  {
    hide Lex;
    EmptyLexes();
    WordLexes(w, "");
    assert w + "" == w && [Word(w)] + [] == [Word(w)];
  }

  // ----- Times -----

  ghost function TimeCond(column: string, op: Comparison, text: string): Cond {
    Compare(op, [Word(column)], [Word("TIMESTAMP"), Literal(text)])
  }

  /** A column of a table: a word that begins no other kind of condition. */
  predicate IsColumn(column: string) {
    && column != [] && (forall i | 0 <= i < |column| :: IsWordChar(column[i]))
    && column !in {"NOT", "TRUE", "FALSE", "regexp_matches"}
  }

  lemma TimestampLexes(text: string)
    ensures Lex(" TIMESTAMP " + Quote(text)) == Some([Word("TIMESTAMP"), Literal(text)])
  {
    hide Lex, Quote;
    LoneQuoteLexes(text);
    SpaceLexes(Quote(text));
    WordLexes("TIMESTAMP", " " + Quote(text));
    SpaceLexes("TIMESTAMP" + (" " + Quote(text)));
    assert " " + ("TIMESTAMP" + (" " + Quote(text))) == " TIMESTAMP " + Quote(text);
    assert [Word("TIMESTAMP")] + [Literal(text)] == [Word("TIMESTAMP"), Literal(text)];
  }

  /** A comparison operator between spaces, before a timestamp. */
  lemma FromLexes(text: string)
    ensures Lex(" >=" + (" TIMESTAMP " + Quote(text))) ==
      Some([Symbol('>'), Symbol('='), Word("TIMESTAMP"), Literal(text)])
  {
    hide Lex, Quote;
    var tail := " TIMESTAMP " + Quote(text);
    TimestampLexes(text);
    SymbolLexes('=', tail);
    SymbolLexes('>', ['='] + tail);
    SpaceLexes(['>'] + (['='] + tail));
    assert " " + (['>'] + (['='] + tail)) == " >=" + tail;
    assert [Symbol('>')] + ([Symbol('=')] + [Word("TIMESTAMP"), Literal(text)]) ==
      [Symbol('>'), Symbol('='), Word("TIMESTAMP"), Literal(text)];
  }

  lemma ToLexes(text: string)
    ensures Lex(" <" + (" TIMESTAMP " + Quote(text))) == Some([Symbol('<'), Word("TIMESTAMP"), Literal(text)])
  {
    hide Lex, Quote;
    var tail := " TIMESTAMP " + Quote(text);
    TimestampLexes(text);
    SymbolLexes('<', tail);
    SpaceLexes(['<'] + tail);
    assert " " + (['<'] + tail) == " <" + tail;
    assert [Symbol('<')] + [Word("TIMESTAMP"), Literal(text)] == [Symbol('<'), Word("TIMESTAMP"), Literal(text)];
  }

  lemma TimeFromMeans(column: string, text: string)
    requires IsColumn(column)
    ensures Means(TimeFrom(column, text), TimeCond(column, AtLeast, text))
  {
    hide Lex, Quote, ReadsAs;
    var tail := " >=" + (" TIMESTAMP " + Quote(text));
    FromLexes(text);
    WordLexes(column, tail);
    assert column + tail == TimeFrom(column, text);
    var right := [Word("TIMESTAMP"), Literal(text)];
    ColumnCompareReads(column, AtLeast, right);
    assert [Word(column)] + [Symbol('>'), Symbol('='), Word("TIMESTAMP"), Literal(text)] ==
      [Word(column)] + OpTokens(AtLeast) + right;
  }

  lemma TimeToMeans(column: string, text: string)
    requires IsColumn(column)
    ensures Means(TimeTo(column, text), TimeCond(column, Less, text))
  {
    hide Lex, Quote, ReadsAs;
    var tail := " <" + (" TIMESTAMP " + Quote(text));
    ToLexes(text);
    WordLexes(column, tail);
    assert column + tail == TimeTo(column, text);
    var right := [Word("TIMESTAMP"), Literal(text)];
    ColumnCompareReads(column, Less, right);
    assert [Word(column)] + [Symbol('<'), Word("TIMESTAMP"), Literal(text)] ==
      [Word(column)] + OpTokens(Less) + right;
  }

  // ----- Clauses and their conditions -----

  ghost function MatcherConds(expr: string, m: FieldMatcher): seq<Cond>
    requires Closed(expr)
  {
    var value := ValueTokens(Lex(expr).value);
    match m.op
    case Eq => [Compare(Equal, value, [Literal(m.value)])]
    case NotEq => [Compare(NotEqual, value, [Literal(m.value)])]
    case Regex => if m.value == ".*" then [] else [Matches(value, [Literal(m.value)])]
    case NotRegex => [if m.value == ".*" then Constant(false) else Not(Matches(value, [Literal(m.value)]))]
  }

  lemma ValueMatchesReads(e: seq<Token>, pattern: string)
    requires Balanced(Skeleton(e))
    ensures ReadsAs(MatchesTokens(ValueTokens(e), pattern), Matches(ValueTokens(e), [Literal(pattern)]))
    ensures ReadsAs([Word("NOT")] + MatchesTokens(ValueTokens(e), pattern),
                    Not(Matches(ValueTokens(e), [Literal(pattern)])))
  {
    hide ParseOperand, ParseNot, MatchesTokens, ValueTokens;
    forall rest | EndsUnit(rest)
      ensures ParseNot(MatchesTokens(ValueTokens(e), pattern) + rest) ==
        Some((Matches(ValueTokens(e), [Literal(pattern)]), rest))
      ensures ParseNot([Word("NOT")] + MatchesTokens(ValueTokens(e), pattern) + rest) ==
        Some((Not(Matches(ValueTokens(e), [Literal(pattern)])), rest))
    {
      ValueParses(e, MatchesEnd(pattern) + rest);
      MatchesParses(ValueTokens(e), pattern, rest);
    }
  }

  lemma CompareMeans(expr: string, m: FieldMatcher)
    requires Closed(expr) && (m.op == Eq || m.op == NotEq)
    ensures AllMean(MatcherClauses(expr, m), MatcherConds(expr, m))
  {
    hide Lex, Quote, ReadsAs, ValueTokens, Skeleton, ValueExpr;
    var value, op := ValueTokens(Lex(expr).value), if m.op == Eq then Equal else NotEqual;
    ValueLexes(expr);
    OperandNoBraces(Lex(expr).value, "");
    EqualsLexes(m.value);
    DiffersLexes(m.value);
    LexConcat(ValueExpr(expr), (if m.op == Eq then " = " else " != ") + Quote(m.value));
    assert ValueExpr(expr) + ((if m.op == Eq then " = " else " != ") + Quote(m.value)) == MatcherClauses(expr, m)[0];
    ValueCompareReads(Lex(expr).value, op, [Literal(m.value)]);
    assert value + OpTokens(op) + [Literal(m.value)] == value + (OpTokens(op) + [Literal(m.value)]);
    assert OpTokens(op) + [Literal(m.value)] ==
      if m.op == Eq then [Symbol('='), Literal(m.value)] else [Symbol('!'), Symbol('='), Literal(m.value)];
  }

  /** Each clause of a matcher is one condition. */
  lemma MatcherMeans(expr: string, m: FieldMatcher)
    requires Closed(expr)
    ensures AllMean(MatcherClauses(expr, m), MatcherConds(expr, m))
  {
    hide Lex, Quote, ReadsAs, ValueTokens, Skeleton, ValueExpr, MatchesTokens;
    var value := ValueTokens(Lex(expr).value);
    if m.op == Eq || m.op == NotEq {
      CompareMeans(expr, m);
    } else if m.value == ".*" {
      WordAloneLexes("FALSE");
      ConstantReads(false);
    } else {
      ValueLexes(expr);
      OperandNoBraces(Lex(expr).value, "");
      OperandNoBraces(value, m.value);
      MatchesLexes(ValueExpr(expr), value, m.value);
      ValueMatchesReads(Lex(expr).value, m.value);
      NotMatchesText(ValueExpr(expr), m.value);
      NotLexes("regexp_matches(" + ValueExpr(expr) + ", " + Quote(m.value) + ")", MatchesTokens(value, m.value));
    }
  }

  lemma NotMatchesText(operand: string, pattern: string)
    ensures "NOT " + ("regexp_matches(" + operand + ", " + Quote(pattern) + ")") ==
      "NOT regexp_matches(" + operand + ", " + Quote(pattern) + ")"
  {
    hide Quote;
    assert "NOT " + "regexp_matches(" == "NOT regexp_matches(";
  }
}
