/**
 The meaning of a WHERE condition, independently of how it is written: a parser with SQL's
 precedence over the tokens of its text, and evaluation in three-valued logic.
 */
module SqlCondition {
  import opened BasicTypes
  import opened Text
  import opened SqlText
  import opened Parens

  datatype Comparison = Equal | NotEqual | AtLeast | Less | Like

  datatype Cond =
    | Constant(value: bool)
    | Compare(op: Comparison, left: seq<Token>, right: seq<Token>)
    | Matches(left: seq<Token>, right: seq<Token>)
    | OneOf(left: seq<Token>, values: seq<string>)
    | NotNull(left: seq<Token>)
    | Not(c: Cond)
    | And(a: Cond, b: Cond)
    | Or(a: Cond, b: Cond)

  // ----- Parsing -----

  function Mark(t: Token): char {
    if t.Symbol? && (t.c == '(' || t.c == ')') then t.c else ' '
  }

  /** The parentheses of a token list, each other token shown as a space. */
  function Skeleton(ts: seq<Token>): string {
    seq(|ts|, i requires 0 <= i < |ts| => Mark(ts[i]))
  }

  /** A literal, a column, a typed literal or a function call. */
  function ParseOperand(ts: seq<Token>): (r: Option<(seq<Token>, seq<Token>)>)
    ensures r.Some? ==> |r.value.1| < |ts|
  {
    if ts == [] || ts[0].Symbol? then None
    else if ts[0].Literal? then Some((ts[..1], ts[1..]))
    else if |ts| > 1 && ts[1] == Symbol('(') then
      match CloseFrom(1, Skeleton(ts[2..]))
      case None => None
      case Some(i) => Some((ts[..i + 3], ts[i + 3..]))
    else if |ts| > 1 && ts[1].Literal? then Some((ts[..2], ts[2..]))
    else Some((ts[..1], ts[1..]))
  }

  function ParseComparison(ts: seq<Token>): (r: Option<(Comparison, seq<Token>)>)
    ensures r.Some? ==> |r.value.1| < |ts|
  {
    if [Symbol('=')] <= ts then Some((Equal, ts[1..]))
    else if [Symbol('<'), Symbol('>')] <= ts then Some((NotEqual, ts[2..]))
    else if [Symbol('!'), Symbol('=')] <= ts then Some((NotEqual, ts[2..]))
    else if [Symbol('>'), Symbol('=')] <= ts then Some((AtLeast, ts[2..]))
    else if [Symbol('<')] <= ts then Some((Less, ts[1..]))
    else if [Word("ILIKE")] <= ts then Some((Like, ts[1..]))
    else None
  }

  function ParseCompare(ts: seq<Token>): (r: Option<(Cond, seq<Token>)>)
    ensures r.Some? ==> |r.value.1| < |ts|
  {
    match ParseOperand(ts)
    case None => None
    case Some((left, rest)) =>
      if [Word("IS"), Word("NOT"), Word("NULL")] <= rest then Some((NotNull(left), rest[3..]))
      else if [Word("IN"), Symbol('(')] <= rest then
        match ParseLiterals(rest[2..])
        case None => None
        case Some((values, end)) => Some((OneOf(left, values), end))
      else
        match ParseComparison(rest)
        case None => None
        case Some((op, more)) =>
          match ParseOperand(more)
          case None => None
          case Some((right, end)) => Some((Compare(op, left, right), end))
  }

  /** Literals between commas, and a closing parenthesis. */
  function ParseLiterals(ts: seq<Token>): (r: Option<(seq<string>, seq<Token>)>)
    ensures r.Some? ==> |r.value.1| < |ts|
  {
    if |ts| < 2 || !ts[0].Literal? then None
    else if ts[1] == Symbol(')') then Some(([ts[0].value], ts[2..]))
    else if ts[1] != Symbol(',') then None
    else
      match ParseLiterals(ts[2..])
      case None => None
      case Some((later, end)) => Some(([ts[0].value] + later, end))
  }

  /** Two operands and a closing parenthesis. */
  function ParseMatches(ts: seq<Token>): (r: Option<(Cond, seq<Token>)>)
    ensures r.Some? ==> |r.value.1| < |ts|
  {
    match ParseOperand(ts)
    case None => None
    case Some((left, rest)) =>
      if !([Symbol(',')] <= rest) then None
      else
        match ParseOperand(rest[1..])
        case None => None
        case Some((right, end)) => if [Symbol(')')] <= end then Some((Matches(left, right), end[1..])) else None
  }

  function ParseOr(ts: seq<Token>): (r: Option<(Cond, seq<Token>)>)
    ensures r.Some? ==> |r.value.1| < |ts|
    decreases |ts|, 3
  {
    match ParseAnd(ts)
    case None => None
    case Some((a, rest)) =>
      if !([Word("OR")] <= rest) then Some((a, rest))
      else
        match ParseOr(rest[1..])
        case None => None
        case Some((b, end)) => Some((Or(a, b), end))
  }

  function ParseAnd(ts: seq<Token>): (r: Option<(Cond, seq<Token>)>)
    ensures r.Some? ==> |r.value.1| < |ts|
    decreases |ts|, 2
  {
    match ParseNot(ts)
    case None => None
    case Some((a, rest)) =>
      if !([Word("AND")] <= rest) then Some((a, rest))
      else
        match ParseAnd(rest[1..])
        case None => None
        case Some((b, end)) => Some((And(a, b), end))
  }

  function ParseNot(ts: seq<Token>): (r: Option<(Cond, seq<Token>)>)
    ensures r.Some? ==> |r.value.1| < |ts|
    decreases |ts|, 1
  {
    if [Word("NOT")] <= ts then
      match ParseNot(ts[1..])
      case None => None
      case Some((c, rest)) => Some((Not(c), rest))
    else ParsePrimary(ts)
  }

  function ParsePrimary(ts: seq<Token>): (r: Option<(Cond, seq<Token>)>)
    ensures r.Some? ==> |r.value.1| < |ts|
    decreases |ts|, 0
  {
    if [Word("TRUE")] <= ts then Some((Constant(true), ts[1..]))
    else if [Word("FALSE")] <= ts then Some((Constant(false), ts[1..]))
    else if [Symbol('(')] <= ts then
      match ParseOr(ts[1..])
      case None => None
      case Some((c, rest)) => if [Symbol(')')] <= rest then Some((c, rest[1..])) else None
    else if [Word("regexp_matches"), Symbol('(')] <= ts then ParseMatches(ts[2..])
    else ParseCompare(ts)
  }

  /** The condition a text stands for. */
  function Condition(text: string): Option<Cond> {
    match Lex(text)
    case None => None
    case Some(ts) =>
      match ParseOr(ts)
      case None => None
      case Some((c, rest)) => if rest == [] then Some(c) else None
  }

  // ----- Joined conditions -----

  /** What may follow a condition. */
  predicate EndsUnit(rest: seq<Token>) {
    rest == [] || rest[0] == Word("AND") || rest[0] == Word("OR") || rest[0] == Symbol(')')
  }

  /** These tokens are one condition that binds tighter than AND, whatever follows. */
  ghost predicate ReadsAs(ts: seq<Token>, c: Cond) {
    forall rest | EndsUnit(rest) :: ParseNot(ts + rest) == Some((c, rest))
  }

  ghost predicate AllReadAs(units: seq<seq<Token>>, cs: seq<Cond>) {
    |units| == |cs| && forall i | 0 <= i < |cs| :: ReadsAs(units[i], cs[i])
  }

  function JoinTokens(units: seq<seq<Token>>, sep: Token): seq<Token> {
    if units == [] then []
    else if |units| == 1 then units[0]
    else units[0] + [sep] + JoinTokens(units[1..], sep)
  }

  function AndAll(cs: seq<Cond>): Cond
    requires cs != []
  {
    if |cs| == 1 then cs[0] else And(cs[0], AndAll(cs[1..]))
  }

  function OrAll(cs: seq<Cond>): Cond
    requires cs != []
  {
    if |cs| == 1 then cs[0] else Or(cs[0], OrAll(cs[1..]))
  }

  lemma UnitReads(ts: seq<Token>, c: Cond, rest: seq<Token>)
    requires ReadsAs(ts, c) && EndsUnit(rest)
    ensures ParseNot(ts + rest) == Some((c, rest))
  {
    hide ParseNot;
  }

  lemma {:induction false} AndReads(units: seq<seq<Token>>, cs: seq<Cond>, rest: seq<Token>)
    requires AllReadAs(units, cs) && cs != [] && EndsUnit(rest) && !([Word("AND")] <= rest)
    ensures ParseAnd(JoinTokens(units, Word("AND")) + rest) == Some((AndAll(cs), rest))
    decreases |units|
  {
    hide ParseNot, ReadsAs;
    if |units| == 1 {
      UnitReads(units[0], cs[0], rest);
    } else {
      var later := JoinTokens(units[1..], Word("AND")) + rest;
      AndReads(units[1..], cs[1..], rest);
      UnitReads(units[0], cs[0], [Word("AND")] + later);
      AndStep(units[0], later, cs[0]);
      assert JoinTokens(units, Word("AND")) + rest == units[0] + ([Word("AND")] + later);
    }
  }

  lemma AndStep(unit: seq<Token>, later: seq<Token>, c: Cond)
    requires ParseNot(unit + ([Word("AND")] + later)) == Some((c, [Word("AND")] + later)) && ParseAnd(later).Some?
    ensures ParseAnd(unit + ([Word("AND")] + later)) == Some((And(c, ParseAnd(later).value.0), ParseAnd(later).value.1))
  {
    hide ParseNot;
    assert ([Word("AND")] + later)[1..] == later;
  }

  lemma {:induction false} OrReads(units: seq<seq<Token>>, cs: seq<Cond>, rest: seq<Token>)
    requires AllReadAs(units, cs) && cs != [] && (rest == [] || rest[0] == Symbol(')'))
    ensures ParseOr(JoinTokens(units, Word("OR")) + rest) == Some((OrAll(cs), rest))
    decreases |units|
  {
    hide ParseNot, ParseAnd, ReadsAs;
    if |units| == 1 {
      SingleAnd(units[0], cs[0], rest);
    } else {
      var later := JoinTokens(units[1..], Word("OR")) + rest;
      OrReads(units[1..], cs[1..], rest);
      SingleAnd(units[0], cs[0], [Word("OR")] + later);
      OrStep(units[0], later, cs[0]);
      assert JoinTokens(units, Word("OR")) + rest == units[0] + ([Word("OR")] + later);
    }
  }

  lemma SingleAnd(unit: seq<Token>, c: Cond, rest: seq<Token>)
    requires ReadsAs(unit, c) && EndsUnit(rest) && !([Word("AND")] <= rest)
    ensures ParseAnd(unit + rest) == Some((c, rest))
  {
    hide ParseNot, ReadsAs;
    UnitReads(unit, c, rest);
  }

  lemma OrStep(unit: seq<Token>, later: seq<Token>, c: Cond)
    requires ParseAnd(unit + ([Word("OR")] + later)) == Some((c, [Word("OR")] + later)) && ParseOr(later).Some?
    ensures ParseOr(unit + ([Word("OR")] + later)) == Some((Or(c, ParseOr(later).value.0), ParseOr(later).value.1))
  {
    hide ParseAnd;
    assert ([Word("OR")] + later)[1..] == later;
  }

  /** A parenthesized disjunction or conjunction is one unit. */
  lemma GroupReads(ts: seq<Token>, c: Cond)
    requires forall rest | rest != [] && rest[0] == Symbol(')') :: ParseOr(ts + rest) == Some((c, rest))
    ensures ReadsAs([Symbol('(')] + ts + [Symbol(')')], c)
  {
    var group := [Symbol('(')] + ts + [Symbol(')')];
    forall rest | EndsUnit(rest) ensures ParseNot(group + rest) == Some((c, rest)) {
      GroupParses(ts, c, rest);
    }
  }

  lemma GroupParses(ts: seq<Token>, c: Cond, rest: seq<Token>)
    requires ParseOr(ts + ([Symbol(')')] + rest)) == Some((c, [Symbol(')')] + rest))
    ensures ParseNot([Symbol('(')] + ts + [Symbol(')')] + rest) == Some((c, rest))
  {
    hide ParseOr;
    var end := [Symbol(')')] + rest;
    var all := [Symbol('(')] + ts + [Symbol(')')] + rest;
    assert all[1..] == ts + end && end[1..] == rest;
    assert all[0] == Symbol('(');
  }

  // ----- Evaluation -----

  datatype Truth = Yes | No | Unknown

  function Known(b: bool): Truth {
    if b then Yes else No
  }

  function Negation(a: Truth): Truth {
    match a case Yes => No case No => Yes case Unknown => Unknown
  }

  function Conjunction(a: Truth, b: Truth): Truth {
    if a == No || b == No then No else if a == Yes && b == Yes then Yes else Unknown
  }

  function Disjunction(a: Truth, b: Truth): Truth {
    if a == Yes || b == Yes then Yes else if a == No && b == No then No else Unknown
  }

  /**
   A row: the nanoseconds of each time column, its body, and the text of every other column
   and of each label expression.
   */
  datatype Row = Row(times: string -> int, body: Option<string>, labels: seq<Token> -> Option<string>)

  /** What the database brings: partial matching of regular expressions, and reading of timestamps. */
  datatype Database = Database(matches: (string, string) -> bool, timestamp: string -> int)

  /** LIKE: `%` is any text, `_` any one character. */
  predicate LikeMatches(s: string, pattern: string)
    decreases |s| + |pattern|
  {
    if pattern == [] then s == []
    else if pattern[0] == '%' then LikeMatches(s, pattern[1..]) || (s != [] && LikeMatches(s[1..], pattern))
    else s != [] && (pattern[0] == '_' || pattern[0] == s[0]) && LikeMatches(s[1..], pattern[1..])
  }

  /** The text an operand stands for; None is NULL. */
  function TextValue(row: Row, ts: seq<Token>): Option<string>
    decreases |ts|
  {
    if |ts| == 1 && ts[0].Literal? then Some(ts[0].value)
    else if ts == [Word("body")] then row.body
    else if |ts| == 1 && ts[0].Word? then row.labels(ts)
    else if |ts| > 5 && ts[..2] == [Word("coalesce"), Symbol('(')] && ts[|ts| - 2].Literal? then
      var first := TextValue(row, ts[2..|ts| - 3]);
      if first.Some? then first else Some(ts[|ts| - 2].value)
    else if |ts| >= 5 && ts[..2] == [Word("cast"), Symbol('(')] then row.labels(ts[2..|ts| - 3])
    else None
  }

  function TimeValue(db: Database, row: Row, ts: seq<Token>): Option<int> {
    if |ts| == 1 && ts[0].Word? then Some(row.times(ts[0].text))
    else if |ts| == 2 && ts[0] == Word("TIMESTAMP") && ts[1].Literal? then Some(db.timestamp(ts[1].value))
    else None
  }

  function CompareTexts(op: Comparison, a: string, b: string): bool {
    match op
    case Equal => a == b
    case NotEqual => a != b
    case _ => LikeMatches(ToLower(a), ToLower(b))
  }

  function Eval(db: Database, row: Row, c: Cond): Truth {
    match c
    case Constant(b) => Known(b)
    case Compare(op, left, right) =>
      if op == AtLeast || op == Less then
        match (TimeValue(db, row, left), TimeValue(db, row, right))
        case (Some(a), Some(b)) => Known(if op == AtLeast then a >= b else a < b)
        case _ => Unknown
      else
        (match (TextValue(row, left), TextValue(row, right))
         case (Some(a), Some(b)) => Known(CompareTexts(op, a, b))
         case _ => Unknown)
    case Matches(left, right) =>
      (match (TextValue(row, left), TextValue(row, right))
       case (Some(a), Some(b)) => Known(db.matches(a, b))
       case _ => Unknown)
    case OneOf(left, values) =>
      (match TextValue(row, left)
       case Some(a) => Known(a in values)
       case None => Unknown)
    case NotNull(left) => Known(TextValue(row, left).Some?)
    case Not(d) => Negation(Eval(db, row, d))
    case And(a, b) => Conjunction(Eval(db, row, a), Eval(db, row, b))
    case Or(a, b) => Disjunction(Eval(db, row, a), Eval(db, row, b))
  }

  /** WHERE keeps a row only if the condition is true of it, not if it is unknown. */
  predicate Passes(db: Database, row: Row, c: Cond) {
    Eval(db, row, c) == Yes
  }

  lemma {:induction false} PassesAll(db: Database, row: Row, cs: seq<Cond>)
    requires cs != []
    ensures Passes(db, row, AndAll(cs)) <==> forall i | 0 <= i < |cs| :: Passes(db, row, cs[i])
  {
    hide TextValue, TimeValue, CompareTexts;
    if |cs| > 1 {
      PassesAll(db, row, cs[1..]);
      assert forall i | 1 <= i < |cs| :: cs[i] == cs[1..][i - 1];
      assert forall i | 0 <= i < |cs[1..]| :: cs[1..][i] == cs[i + 1];
    }
  }

  lemma {:induction false} PassesAny(db: Database, row: Row, cs: seq<Cond>)
    requires cs != []
    ensures Passes(db, row, OrAll(cs)) <==> exists i | 0 <= i < |cs| :: Passes(db, row, cs[i])
  {
    hide TextValue, TimeValue, CompareTexts;
    if |cs| > 1 {
      PassesAny(db, row, cs[1..]);
      assert forall i | 1 <= i < |cs| :: cs[i] == cs[1..][i - 1];
      assert forall i | 0 <= i < |cs[1..]| :: cs[1..][i] == cs[i + 1];
    }
  }
}
