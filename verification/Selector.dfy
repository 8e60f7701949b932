/**
 Selectors and their matchers (`src/query/plan.rs`): splitting a label block at the commas
 outside quotes, and parsing each piece.
 */
module Selector {
  import opened BasicTypes
  import opened Text

  datatype MatchOp = Eq | NotEq | Regex | NotRegex

  datatype FieldMatcher = FieldMatcher(field: string, value: string, op: MatchOp)

  type ParseResult<T> = Result<T, string>

  predicate IsIdentChar(c: char) {
    '0' <= c <= '9' || 'a' <= c <= 'z' || 'A' <= c <= 'Z' || c == '_' || c == ':' || c == '.'
  }

  function TrimQuotesStart(s: string): (t: string)
    ensures t == [] || t[0] != '"'
  {
    if s != [] && s[0] == '"' then TrimQuotesStart(s[1..]) else s
  }

  function TrimQuotesEnd(s: string): (t: string)
    ensures t == [] || t[|t| - 1] != '"'
    ensures t <= s
  {
    if s != [] && s[|s| - 1] == '"' then TrimQuotesEnd(s[..|s| - 1]) else s
  }

  function Unquote(value: string): string {
    TrimQuotesEnd(TrimQuotesStart(Trim(value)))
  }

  // ----- Splitting -----

  /** The quote automaton: backslash escapes the next character, but only inside quotes. */
  datatype Quoting = Quoting(inQuote: bool, escaped: bool)

  const OUTSIDE := Quoting(false, false)

  function Step(q: Quoting, c: char): Quoting {
    if q.escaped then Quoting(q.inQuote, false)
    else if c == '\\' && q.inQuote then Quoting(true, true)
    else if c == '"' then Quoting(!q.inQuote, false)
    else q
  }

  predicate Cuts(q: Quoting, c: char) {
    c == ',' && !q.escaped && !q.inQuote
  }

  function Scan(q: Quoting, s: string): Quoting
    decreases |s|
  {
    if s == [] then q else Scan(Step(q, s[0]), s[1..])
  }

  /** The pieces of a text, `piece` being what was read of the current one. */
  function Pieces(q: Quoting, piece: string, s: string): (r: seq<string>)
    ensures r != []
    decreases |s|
  {
    if s == [] then [piece]
    else if Cuts(q, s[0]) then [piece] + Pieces(Step(q, s[0]), [], s[1..])
    else Pieces(Step(q, s[0]), piece + [s[0]], s[1..])
  }

  function SplitLabels(raw: string): ParseResult<seq<string>> {
    if Scan(OUTSIDE, raw).inQuote then Err("unterminated quoted label value") else Ok(Pieces(OUTSIDE, [], raw))
  }

  method SplitLabelMatchers(raw: string) returns (r: ParseResult<seq<string>>)
    ensures r == SplitLabels(raw)
  {
    var parts: seq<string> := [];
    var start := 0;
    var inQuote, escaped := false, false;
    for idx := 0 to |raw|
      invariant start <= idx
      invariant Scan(OUTSIDE, raw) == Scan(Quoting(inQuote, escaped), raw[idx..])
      invariant Pieces(OUTSIDE, [], raw) == parts + Pieces(Quoting(inQuote, escaped), raw[start..idx], raw[idx..])
    {
      var ch := raw[idx];
      ghost var q := Quoting(inQuote, escaped);
      assert raw[idx..][0] == ch && raw[idx..][1..] == raw[idx + 1..];
      assert raw[start..idx] + [ch] == raw[start..idx + 1];
      if escaped {
        escaped := false;
      } else if ch == '\\' && inQuote {
        escaped := true;
      } else if ch == '"' {
        inQuote := !inQuote;
      } else if ch == ',' && !inQuote {
        ghost var later := Pieces(q, [], raw[idx + 1..]);
        assert parts + ([raw[start..idx]] + later) == parts + [raw[start..idx]] + later;
        parts := parts + [raw[start..idx]];
        start := idx + 1;
        assert raw[start..idx + 1] == [];
      }
    }
    assert raw[|raw|..] == [];
    if inQuote {
      return Err("unterminated quoted label value");
    }
    assert raw[start..|raw|] == raw[start..];
    return Ok(parts + [raw[start..]]);
  }

  /** The pieces joined by commas are the text that was split: nothing is lost. */
  lemma {:induction false} PiecesJoin(q: Quoting, piece: string, s: string)
    ensures Join(Pieces(q, piece, s), ",") == piece + s
    decreases |s|
  {
    if s == [] {
      assert piece + s == piece;
    } else if Cuts(q, s[0]) {
      PiecesJoin(Step(q, s[0]), [], s[1..]);
      JoinCons(piece, Pieces(Step(q, s[0]), [], s[1..]));
      assert [] + s[1..] == s[1..] && piece + "," + s[1..] == piece + s;
    } else {
      PiecesJoin(Step(q, s[0]), piece + [s[0]], s[1..]);
      assert piece + [s[0]] + s[1..] == piece + s;
    }
  }

  /** No comma of this text would cut it. */
  predicate Uncut(q: Quoting, s: string)
    decreases |s|
  {
    s == [] || (!Cuts(q, s[0]) && Uncut(Step(q, s[0]), s[1..]))
  }

  /** Each piece is read from the state after the previous comma, and no comma inside it cuts. */
  predicate CutOnlyOutside(q: Quoting, pieces: seq<string>)
    decreases |pieces|
  {
    pieces != [] ==>
      && Uncut(q, pieces[0])
      && (|pieces| > 1 ==> Cuts(Scan(q, pieces[0]), ',') && CutOnlyOutside(Step(Scan(q, pieces[0]), ','), pieces[1..]))
  }

  lemma {:induction false} ScanConcat(q: Quoting, a: string, b: string)
    ensures Scan(q, a + b) == Scan(Scan(q, a), b)
    ensures Uncut(q, a + b) <==> Uncut(q, a) && Uncut(Scan(q, a), b)
    decreases |a|
  {
    if a == [] {
      assert a + b == b;
    } else {
      assert (a + b)[1..] == a[1..] + b;
      ScanConcat(Step(q, a[0]), a[1..], b);
    }
  }

  lemma {:induction false} PiecesCutOutside(q0: Quoting, piece: string, s: string)
    requires Uncut(q0, piece)
    ensures CutOnlyOutside(q0, Pieces(Scan(q0, piece), piece, s))
    decreases |s|
  {
    var q := Scan(q0, piece);
    if s != [] {
      if Cuts(q, s[0]) {
        PiecesCutOutside(Step(q, ','), [], s[1..]);
        var later := Pieces(Step(q, ','), [], s[1..]);
        assert ([piece] + later)[1..] == later;
      } else {
        ScanConcat(q0, piece, [s[0]]);
        assert Scan(q, [s[0]]) == Step(q, s[0]) by { assert [s[0]][1..] == []; }
        assert Uncut(q, [s[0]]) by { assert [s[0]][1..] == []; }
        PiecesCutOutside(q0, piece + [s[0]], s[1..]);
      }
    }
  }

  /**
   Splitting loses nothing and cuts exactly at the commas outside quotes; it succeeds
   exactly when the text does not end inside a quote.
   */
  lemma SplitIsExact(raw: string)
    ensures SplitLabels(raw).Ok? <==> !Scan(OUTSIDE, raw).inQuote
    ensures SplitLabels(raw).Ok? ==>
      Join(SplitLabels(raw).value, ",") == raw && CutOnlyOutside(OUTSIDE, SplitLabels(raw).value)
  {
    PiecesJoin(OUTSIDE, [], raw);
    PiecesCutOutside(OUTSIDE, [], raw);
    assert [] + raw == raw;
  }

  // ----- Parsing -----

  /** One piece: the operators are looked for anywhere in it, in this order. */
  function ParsePart(part: string): ParseResult<FieldMatcher> {
    var notRegex, regex, notEq, eq :=
      SplitOnce(part, "!~"), SplitOnce(part, "=~"), SplitOnce(part, "!="), SplitOnce(part, "=");
    if notRegex.Some? then Ok(MatcherOf(notRegex.value, NotRegex))
    else if regex.Some? then Ok(MatcherOf(regex.value, Regex))
    else if notEq.Some? then Ok(MatcherOf(notEq.value, NotEq))
    else if eq.Some? then Ok(MatcherOf(eq.value, Eq))
    else Err("label filters must use =, !=, =~, or !~")
  }

  function MatcherOf(split: (string, string), op: MatchOp): FieldMatcher {
    FieldMatcher(Trim(split.0), Unquote(Trim(split.1)), op)
  }

  function ParseParts(parts: seq<string>): ParseResult<seq<FieldMatcher>> {
    if parts == [] then Ok([])
    else if Trim(parts[0]) == [] then ParseParts(parts[1..])
    else
      match ParsePart(Trim(parts[0]))
      case Err(reason) => Err(reason)
      case Ok(m) =>
        match ParseParts(parts[1..])
        case Err(reason) => Err(reason)
        case Ok(ms) => Ok([m] + ms)
  }

  function ParseLabels(raw: string): ParseResult<seq<FieldMatcher>> {
    match SplitLabels(raw)
    case Err(reason) => Err(reason)
    case Ok(parts) => ParseParts(parts)
  }

  method ParseLabelMatchers(raw: string) returns (r: ParseResult<seq<FieldMatcher>>)
    ensures r == ParseLabels(raw)
  {
    var split := SplitLabelMatchers(raw);
    if split.Err? {
      return Err(split.reason);
    }
    var parts := split.value;
    var labels: seq<FieldMatcher> := [];
    assert parts[0..] == parts;
    PrependNothing(ParseParts(parts));
    hide ParseParts, ParsePart, Prepended;
    for i := 0 to |parts|
      invariant ParseParts(parts) == Prepended(labels, ParseParts(parts[i..]))
    {
      PartsStep(labels, parts[i..]);
      assert parts[i..][0] == parts[i] && parts[i..][1..] == parts[i + 1..];
      var part := Trim(parts[i]);
      if part == [] {
        continue;
      }
      var m := ParsePart(part);
      if m.Err? {
        return Err(m.reason);
      }
      labels := labels + [m.value];
    }
    assert parts[|parts|..] == [];
    PartsDone(labels);
    return Ok(labels);
  }

  lemma PrependNothing(r: ParseResult<seq<FieldMatcher>>)
    ensures Prepended([], r) == r
  {
    assert r.Ok? ==> [] + r.value == r.value;
  }

  lemma PartsDone(labels: seq<FieldMatcher>)
    ensures Prepended(labels, ParseParts([])) == Ok(labels)
  {
    assert labels + [] == labels;
  }

  lemma PartsStep(labels: seq<FieldMatcher>, rest: seq<string>)
    requires rest != []
    ensures Trim(rest[0]) == [] ==> ParseParts(rest) == ParseParts(rest[1..])
    ensures Trim(rest[0]) != [] ==>
      var m := ParsePart(Trim(rest[0]));
      && (m.Err? ==> Prepended(labels, ParseParts(rest)) == Err(m.reason))
      && (m.Ok? ==> Prepended(labels, ParseParts(rest)) == Prepended(labels + [m.value], ParseParts(rest[1..])))
  {
    hide ParsePart;
    var later := ParseParts(rest[1..]);
    if Trim(rest[0]) != [] && ParsePart(Trim(rest[0])).Ok? && later.Ok? {
      var m := ParsePart(Trim(rest[0])).value;
      assert labels + ([m] + later.value) == labels + [m] + later.value;
    }
  }

  ghost function Prepended(before: seq<FieldMatcher>,
                           r: ParseResult<seq<FieldMatcher>>): ParseResult<seq<FieldMatcher>> {
    match r
    case Ok(ms) => Ok(before + ms)
    case Err(reason) => Err(reason)
  }

  predicate AllIdentChars(s: string) {
    forall i | 0 <= i < |s| :: IsIdentChar(s[i])
  }

  /** `name`, `name{...}` or `{...}`. */
  function ParseSelector(raw: string): ParseResult<(string, seq<FieldMatcher>)> {
    var t := Trim(raw);
    var brace := SplitOnce(t, "{");
    if brace.None? then
      if t != [] && AllIdentChars(t) then Ok((t, [])) else Err("unsupported selector")
    else ParseBlock(Trim(brace.value.0), brace.value.1)
  }

  /** What follows the opening brace. */
  function ParseBlock(name: string, rest: string): ParseResult<(string, seq<FieldMatcher>)> {
    match StripSuffix(rest, "}")
    case None => Err("selector must end with }")
    case Some(block) =>
      match ParseLabels(block)
      case Err(reason) => Err(reason)
      case Ok(ms) => Ok((name, ms))
  }

  ghost predicate IsIdentifier(s: string) {
    s != "" && forall c | c in s :: c in DIGITS + SMALL_LETTERS + CAPITALS + {'_', ':', '.'}
  }

  /** A text without a brace is a selector exactly if it is an identifier, which then names the metric. */
  lemma BareSelectorExactlyWhen(raw: string)
    requires '{' !in Trim(raw)
    ensures ParseSelector(raw).Ok? <==> IsIdentifier(Trim(raw))
    ensures ParseSelector(raw).Ok? ==> ParseSelector(raw).value == (Trim(raw), [])
  {
    var t := Trim(raw);
    FindNothing(t, "{");
    forall c | c in t
      ensures IsIdentChar(c) <==> c in DIGITS + SMALL_LETTERS + CAPITALS + {'_', ':', '.'}
    {
      DigitsAreListed(c);
      SmallLettersAreListed(c);
      CapitalsAreListed(c);
      hide DIGITS, SMALL_LETTERS, CAPITALS;
    }
  }

  // ----- Printing a selector and parsing it -----

  function OpText(op: MatchOp): string {
    match op case Eq => "=" case NotEq => "!=" case Regex => "=~" case NotRegex => "!~"
  }

  function PrintMatcher(m: FieldMatcher): string {
    m.field + OpText(m.op) + "\"" + m.value + "\""
  }

  function PrintMatchers(ms: seq<FieldMatcher>): seq<string> {
    seq(|ms|, i requires 0 <= i < |ms| => PrintMatcher(ms[i]))
  }

  function PrintSelector(name: string, ms: seq<FieldMatcher>): string {
    name + "{" + Join(PrintMatchers(ms), ",") + "}"
  }

  /** A field with no operator in it. */
  predicate SimpleField(s: string) {
    Trimmed(s) && '=' !in s && '!' !in s
  }

  /** The value has no operator that is tried before the printed one. */
  predicate NoOperatorBefore(m: FieldMatcher) {
    && (m.op != NotRegex ==> !Contains(m.value, "!~"))
    && (m.op == NotEq || m.op == Eq ==> !Contains(m.value, "=~"))
    && (m.op == Eq ==> !Contains(m.value, "!="))
  }

  predicate PlainField(s: string) {
    SimpleField(s) && '"' !in s && ',' !in s && '|' !in s
  }

  /** A matcher that can stand in a list: nothing in it is taken for a quote, a cut or another operator. */
  predicate Printable(m: FieldMatcher) {
    PlainField(m.field) && '"' !in m.value && '\\' !in m.value && NoOperatorBefore(m)
  }

  ghost predicate AllPrintable(ms: seq<FieldMatcher>) {
    forall i | 0 <= i < |ms| :: Printable(ms[i])
  }

  lemma {:induction false} ScanPlain(q: Quoting, s: string)
    requires !q.escaped && '"' !in s && (q.inQuote ==> '\\' !in s) && (!q.inQuote ==> ',' !in s)
    ensures Scan(q, s) == q && Uncut(q, s)
  {
    if s != [] {
      assert s[0] in s;
      assert forall c | c in s[1..] :: c in s;
      ScanPlain(q, s[1..]);
    }
  }

  lemma ScanOne(q: Quoting, c: char)
    ensures Scan(q, [c]) == Step(q, c) && (Uncut(q, [c]) <==> !Cuts(q, c))
  {
    assert [c][1..] == [];
  }

  // ----- Escapes -----

  /** Any text with a backslash before each of its quotes and backslashes. */
  function Escaped(s: string): string {
    if s == [] then []
    else (if s[0] == '"' || s[0] == '\\' then ['\\', s[0]] else [s[0]]) + Escaped(s[1..])
  }

  lemma EscapedChar(c: char)
    ensures var inside := Quoting(true, false);
      var one := if c == '"' || c == '\\' then ['\\', c] else [c];
      Scan(inside, one) == inside && Uncut(inside, one)
  {
    var inside := Quoting(true, false);
    ScanOne(inside, c);
    ScanOne(inside, '\\');
    ScanOne(Quoting(true, true), c);
    ScanConcat(inside, ['\\'], [c]);
    hide Scan, Uncut;
    assert ['\\'] + [c] == ['\\', c];
  }

  lemma {:induction false} EscapedStaysQuoted(s: string)
    ensures var inside := Quoting(true, false); Scan(inside, Escaped(s)) == inside && Uncut(inside, Escaped(s))
  {
    if s != [] {
      var one := if s[0] == '"' || s[0] == '\\' then ['\\', s[0]] else [s[0]];
      EscapedChar(s[0]);
      EscapedStaysQuoted(s[1..]);
      ScanConcat(Quoting(true, false), one, Escaped(s[1..]));
      hide Scan, Uncut;
    }
  }

  /** Whatever a value contains, escaped and in quotes it is never cut and its quote is closed. */
  lemma EscapedIsNeverCut(s: string)
    ensures Scan(OUTSIDE, "\"" + Escaped(s) + "\"") == OUTSIDE && Uncut(OUTSIDE, "\"" + Escaped(s) + "\"")
  {
    var inside := Quoting(true, false);
    ScanOne(OUTSIDE, '"');
    EscapedStaysQuoted(s);
    ScanOne(inside, '"');
    hide Scan, Uncut;
    assert "\"" + Escaped(s) + "\"" == "\"" + (Escaped(s) + "\"");
    ScanConcat(OUTSIDE, "\"", Escaped(s) + "\"");
    ScanConcat(inside, Escaped(s), "\"");
  }

  /** Outside quotes a backslash escapes nothing: a quote after it opens. */
  lemma BackslashOpensNothing()
    ensures Scan(OUTSIDE, "\\\"") == Quoting(true, false)
  {
    ScanOne(OUTSIDE, '\\');
    ScanOne(OUTSIDE, '"');
    ScanConcat(OUTSIDE, "\\", "\"");
    hide Scan;
    assert "\\" + "\"" == "\\\"";
  }

  lemma PrintedUncut(m: FieldMatcher)
    requires Printable(m)
    ensures Scan(OUTSIDE, PrintMatcher(m)) == OUTSIDE && Uncut(OUTSIDE, PrintMatcher(m))
  {
    var inside := Quoting(true, false);
    ScanPlain(OUTSIDE, m.field);
    ScanPlain(OUTSIDE, OpText(m.op));
    ScanOne(OUTSIDE, '"');
    ScanPlain(inside, m.value);
    ScanOne(inside, '"');
    hide Scan, Uncut;
    var tail := m.value + "\"";
    assert PrintMatcher(m) == m.field + (OpText(m.op) + ("\"" + tail));
    ScanConcat(OUTSIDE, m.field, OpText(m.op) + ("\"" + tail));
    ScanConcat(OUTSIDE, OpText(m.op), "\"" + tail);
    ScanConcat(OUTSIDE, "\"", tail);
    ScanConcat(inside, m.value, "\"");
  }

  lemma {:induction false} PieceOf(q: Quoting, piece: string, p: string, rest: string)
    requires Uncut(q, p)
    ensures Pieces(q, piece, p + rest) == Pieces(Scan(q, p), piece + p, rest)
    decreases |p|
  {
    if p == [] {
      assert p + rest == rest && piece + p == piece;
    } else {
      assert (p + rest)[1..] == p[1..] + rest && piece + [p[0]] + p[1..] == piece + p;
      PieceOf(Step(q, p[0]), piece + [p[0]], p[1..], rest);
    }
  }

  /** A piece that cuts nowhere, followed by a comma, is the first piece. */
  lemma SplitCons(p: string, rest: string)
    requires Scan(OUTSIDE, p) == OUTSIDE && Uncut(OUTSIDE, p)
    ensures Scan(OUTSIDE, p + "," + rest) == Scan(OUTSIDE, rest)
    ensures Pieces(OUTSIDE, [], p + "," + rest) == [p] + Pieces(OUTSIDE, [], rest)
  {
    assert p + "," + rest == p + ("," + rest);
    ScanConcat(OUTSIDE, p, "," + rest);
    ScanConcat(OUTSIDE, ",", rest);
    ScanOne(OUTSIDE, ',');
    PieceOf(OUTSIDE, [], p, "," + rest);
    hide Scan, Uncut;
    assert [] + p == p && ("," + rest)[1..] == rest;
  }

  lemma SplitSingle(p: string)
    requires Scan(OUTSIDE, p) == OUTSIDE && Uncut(OUTSIDE, p)
    ensures Pieces(OUTSIDE, [], p) == [p]
  {
    PieceOf(OUTSIDE, [], p, []);
    hide Scan, Uncut;
    assert p + [] == p && [] + p == p;
  }

  /** Printed matchers joined by commas split into the printed matchers. */
  lemma {:induction false} PrintedSplit(ms: seq<FieldMatcher>)
    requires AllPrintable(ms) && ms != []
    ensures Scan(OUTSIDE, Join(PrintMatchers(ms), ",")) == OUTSIDE
    ensures Pieces(OUTSIDE, [], Join(PrintMatchers(ms), ",")) == PrintMatchers(ms)
    decreases |ms|
  {
    var p := PrintMatcher(ms[0]);
    PrintedUncut(ms[0]);
    hide Scan, Uncut, PrintMatcher, Pieces, Printable;
    if |ms| == 1 {
      assert PrintMatchers(ms) == [p];
      SplitSingle(p);
    } else {
      var later := PrintMatchers(ms[1..]);
      assert PrintMatchers(ms) == [p] + later;
      PrintedSplit(ms[1..]);
      JoinCons(p, later);
      SplitCons(p, Join(later, ","));
    }
  }

  // ----- Finding the operator -----

  /** Two strings with no occurrence of a two-character pattern, and none across their seam. */
  lemma NoneAcross(a: string, b: string, pat: string)
    requires |pat| == 2
    requires Find(a, pat).None? && Find(b, pat).None?
    requires a != [] && b != [] ==> !(a[|a| - 1] == pat[0] && b[0] == pat[1])
    ensures Find(a + b, pat).None?
  {
    var s := a + b;
    forall j | 0 <= j <= |s| ensures !(pat <= s[j..]) {
      if j + 2 <= |s| {
        assert s[j..][0] == s[j] && s[j..][1] == s[j + 1];
        if j + 1 < |a| {
          assert !(pat <= a[j..]);
          assert a[j..][0] == a[j] && a[j..][1] == a[j + 1];
        } else if j >= |a| {
          assert !(pat <= b[j - |a|..]);
          assert b[j - |a|..][0] == b[j - |a|] && b[j - |a|..][1] == b[j - |a| + 1];
        }
      }
    }
  }

  /** The operator is not one that is tried before it. */
  predicate TriedBefore(pat: string, op: MatchOp) {
    || (pat == "!~" && op != NotRegex)
    || (pat == "=~" && (op == NotEq || op == Eq))
    || (pat == "!=" && op == Eq)
  }

  lemma QuotedOpIsPlain(op: MatchOp, pat: string)
    requires TriedBefore(pat, op)
    ensures Find(OpText(op) + "\"", pat).None?
  {
    var s := OpText(op) + "\"";
    assert |pat| == 2;
    forall j | 0 <= j <= |s| ensures !(pat <= s[j..]) {
      if j + 2 <= |s| {
        assert s[j..][0] == s[j] && s[j..][1] == s[j + 1];
        assert s[j] != pat[0] || s[j + 1] != pat[1];
      }
    }
  }

  /** Nothing in a printed matcher can be taken for an operator tried before its own. */
  lemma NoEarlierOperator(m: FieldMatcher, pat: string)
    requires SimpleField(m.field) && NoOperatorBefore(m) && TriedBefore(pat, m.op)
    ensures Find(PrintMatcher(m), pat).None?
  {
    assert |pat| == 2 && pat[0] !in m.field && pat[0] != '"' && pat[1] != '"' && Find(m.value, pat).None?;
    QuotedOpIsPlain(m.op, pat);
    hide Find, NoOperatorBefore, SimpleField, TriedBefore;
    FindNothing(m.field, pat);
    FindNothing("\"", pat);
    PrintedInPieces(m);
    hide PrintMatcher, OpText;
    NoneInPieces(m.field, OpText(m.op) + "\"", m.value, pat);
  }

  lemma PrintedInPieces(m: FieldMatcher)
    ensures PrintMatcher(m) == m.field + (OpText(m.op) + "\"") + m.value + "\""
  {
    hide OpText;
  }

  lemma NoneInPieces(field: string, op: string, value: string, pat: string)
    requires |pat| == 2 && pat[0] !in field && pat[0] != '"' && pat[1] != '"' && op != [] && op[|op| - 1] == '"'
    requires Find(field, pat).None? && Find(op, pat).None? && Find(value, pat).None? && Find("\"", pat).None?
    ensures Find(field + op + value + "\"", pat).None?
  {
    hide Find;
    NoneAcross(field, op, pat);
    NoneAcross(field + op, value, pat);
    NoneAcross(field + op + value, "\"", pat);
  }

  predicate NoQuoteAtEnds(value: string) {
    value == [] || (value[0] != '"' && value[|value| - 1] != '"')
  }

  /** Trimming quotes off a quoted text that has none at its own ends. */
  lemma QuotesTrimmed(value: string)
    requires NoQuoteAtEnds(value)
    ensures TrimQuotesEnd(TrimQuotesStart("\"" + value + "\"")) == value
  {
    var rest := value + "\"";
    assert ("\"" + rest)[1..] == rest && "\"" + value + "\"" == "\"" + rest;
    assert TrimQuotesStart("\"" + rest) == TrimQuotesStart(rest);
    if value == [] {
      assert rest[1..] == [] && TrimQuotesStart(rest) == TrimQuotesStart([]) == [];
    } else {
      assert rest[0] == value[0] && TrimQuotesStart(rest) == rest;
      assert rest[..|value|] == value && TrimQuotesEnd(rest) == TrimQuotesEnd(value) == value;
    }
  }

  lemma TrimmedOfQuotes(s: string)
    ensures NoQuoteAtEnds(TrimQuotesEnd(TrimQuotesStart(s)))
  {
    var t := TrimQuotesStart(s);
    var u := TrimQuotesEnd(t);
    assert u != [] ==> u[0] == t[0];
  }

  /** A quoted text is unquoted to itself exactly if it has no quotes at its own ends. */
  lemma UnquoteQuoted(value: string)
    ensures Unquote("\"" + value + "\"") == value <==> NoQuoteAtEnds(value)
  {
    hide TrimQuotesStart, TrimQuotesEnd, Trim, NoQuoteAtEnds;
    var q := "\"" + value + "\"";
    assert q[0] == q[|q| - 1] == '"';
    TrimIdentity(q);
    TrimmedOfQuotes(q);
    if NoQuoteAtEnds(value) {
      QuotesTrimmed(value);
    }
  }

  lemma OwnOperatorFound(m: FieldMatcher)
    requires SimpleField(m.field)
    ensures SplitOnce(PrintMatcher(m), OpText(m.op)) == Some((m.field, "\"" + m.value + "\""))
  {
    var op, quoted := OpText(m.op), "\"" + m.value + "\"";
    assert op != [] && op[0] !in m.field;
    hide Find, SplitOnce, SimpleField, OpText;
    FindAfter(m.field, op, quoted);
    PrintedText(m);
  }

  lemma PrintedText(m: FieldMatcher)
    ensures PrintMatcher(m) == m.field + OpText(m.op) + ("\"" + m.value + "\"")
  {
    hide OpText;
  }

  lemma EarlierNotFound(m: FieldMatcher, pat: string)
    requires SimpleField(m.field) && NoOperatorBefore(m) && TriedBefore(pat, m.op)
    ensures SplitOnce(PrintMatcher(m), pat).None?
  {
    NoEarlierOperator(m, pat);
    hide Find, PrintMatcher;
  }

  /** A printed matcher is cut at its operator, and at none tried before it. */
  lemma PrintedOperator(m: FieldMatcher)
    requires SimpleField(m.field) && NoOperatorBefore(m)
    ensures SplitOnce(PrintMatcher(m), OpText(m.op)) == Some((m.field, "\"" + m.value + "\""))
    ensures m.op != NotRegex ==> SplitOnce(PrintMatcher(m), "!~").None?
    ensures m.op == NotEq || m.op == Eq ==> SplitOnce(PrintMatcher(m), "=~").None?
    ensures m.op == Eq ==> SplitOnce(PrintMatcher(m), "!=").None?
  {
    hide SimpleField, NoOperatorBefore, SplitOnce, PrintMatcher;
    OwnOperatorFound(m);
    if m.op != NotRegex { EarlierNotFound(m, "!~"); }
    if m.op == NotEq || m.op == Eq { EarlierNotFound(m, "=~"); }
    if m.op == Eq { EarlierNotFound(m, "!="); }
  }

  /** A printed matcher is parsed back to itself. */
  lemma ParsesBack(m: FieldMatcher)
    requires SimpleField(m.field) && NoOperatorBefore(m)
    ensures ParsePart(PrintMatcher(m)) == Ok(m) <==> NoQuoteAtEnds(m.value)
  {
    var quoted := "\"" + m.value + "\"";
    assert quoted[0] == quoted[|quoted| - 1] == '"' && Trimmed(m.field);
    hide SplitOnce, PrintMatcher, Unquote, Trim, SimpleField, NoOperatorBefore, NoQuoteAtEnds;
    PrintedOperator(m);
    TrimIdentity(m.field);
    TrimIdentity(quoted);
    UnquoteQuoted(m.value);
  }

  lemma PrintedParses(m: FieldMatcher)
    requires Printable(m)
    ensures ParsePart(PrintMatcher(m)) == Ok(m)
    ensures Trimmed(PrintMatcher(m)) && PrintMatcher(m) != []
  {
    PrintedTrimmed(m);
    assert NoQuoteAtEnds(m.value);
    hide ParsePart, PrintMatcher, NoOperatorBefore;
    ParsesBack(m);
  }

  lemma ContainsInside(before: string, s: string, after: string, pat: string)
    requires pat != [] && Contains(s, pat)
    ensures Contains(before + s + after, pat)
  {
    var i := Find(s, pat).value;
    var all := before + s + after;
    assert all[|before| + i..][..|pat|] == s[i..][..|pat|] == pat;
    assert pat <= all[|before| + i..];
  }

  lemma EarlierOperatorWins(part: string, pat: string, op: MatchOp)
    requires TriedBefore(pat, op) && Contains(part, pat)
    ensures ParsePart(part).Ok? && ParsePart(part).value.op != op
  {
    hide Find, Unquote, Trim;
  }

  /**
   A printed matcher is parsed back exactly if its value has no quotes at its ends and no
   operator that is tried before its own.
   */
  lemma PrintedParsesExactlyWhen(m: FieldMatcher)
    requires SimpleField(m.field)
    ensures ParsePart(PrintMatcher(m)) == Ok(m) <==> NoQuoteAtEnds(m.value) && NoOperatorBefore(m)
  {
    if NoOperatorBefore(m) {
      hide NoOperatorBefore, ParsePart, PrintMatcher, NoQuoteAtEnds;
      ParsesBack(m);
    } else {
      hide Find, ParsePart, SimpleField, OpText;
      var pat := if m.op != NotRegex && Contains(m.value, "!~") then "!~"
                 else if Contains(m.value, "=~") then "=~" else "!=";
      var start := m.field + OpText(m.op) + "\"";
      ContainsInside(start, m.value, "\"", pat);
      assert PrintMatcher(m) == start + m.value + "\"";
      EarlierOperatorWins(PrintMatcher(m), pat, m.op);
    }
  }

  lemma PrintedTrimmed(m: FieldMatcher)
    requires Printable(m)
    ensures Trimmed(PrintMatcher(m)) && PrintMatcher(m) != []
    ensures Trimmed("\"" + m.value + "\"")
  {
    var p := PrintMatcher(m);
    assert p[|p| - 1] == '"';
    assert p[0] == if m.field == [] then OpText(m.op)[0] else m.field[0];
  }

  lemma {:induction false} PrintedPartsParse(ms: seq<FieldMatcher>)
    requires AllPrintable(ms)
    ensures ParseParts(PrintMatchers(ms)) == Ok(ms)
  {
    hide ParsePart, Printable, PrintMatcher, Trim, Trimmed;
    if ms != [] {
      hide ParseParts;
      var p, later := PrintMatcher(ms[0]), PrintMatchers(ms[1..]);
      PrintedParses(ms[0]);
      TrimIdentity(p);
      PrintedPartsParse(ms[1..]);
      assert PrintMatchers(ms) == [p] + later;
      PartsCons(p, later, ms[0], ms[1..]);
      assert ms == [ms[0]] + ms[1..];
    }
  }

  lemma PartsCons(p: string, later: seq<string>, m: FieldMatcher, ms: seq<FieldMatcher>)
    requires Trim(p) == p != [] && ParsePart(p) == Ok(m) && ParseParts(later) == Ok(ms)
    ensures ParseParts([p] + later) == Ok([m] + ms)
  {
    hide ParsePart, Trim;
    assert ([p] + later)[1..] == later;
  }

  lemma PrintedLabelsParse(ms: seq<FieldMatcher>)
    requires AllPrintable(ms)
    ensures ParseLabels(Join(PrintMatchers(ms), ",")) == Ok(ms)
  {
    if ms == [] {
      assert PrintMatchers(ms) == [];
      assert Pieces(OUTSIDE, [], "") == [[]];
      assert Trim([]) == [];
      assert ParseParts([[]]) == ParseParts([[]][1..]) == Ok([]);
    } else {
      PrintedSplit(ms);
      PrintedPartsParse(ms);
      hide ParseParts, PrintMatchers;
    }
  }

  /** A selector printed from a name and matchers is parsed back to them. */
  lemma SelectorRoundTrip(name: string, ms: seq<FieldMatcher>)
    requires Trimmed(name) && '{' !in name && AllPrintable(ms)
    ensures ParseSelector(PrintSelector(name, ms)) == Ok((name, ms))
  {
    var block := Join(PrintMatchers(ms), ",");
    var p := PrintSelector(name, ms);
    assert p == name + "{" + (block + "}");
    assert p[|p| - 1] == '}' && (name != [] ==> p[0] == name[0]) && (name == [] ==> p[0] == '{');
    TrimIdentity(p);
    FindAfter(name, "{", block + "}");
    assert (block + "}")[..|block|] == block && (block + "}")[|block|..] == "}";
    PrintedLabelsParse(ms);
    TrimIdentity(name);
    hide ParseLabels, PrintMatchers, Join, Trim;
  }
}
