/**
 SQL text (`src/db/sql.rs`): quoting of literals, a lexer to read the text back, and the
 replacement of `{prefix}` that every statement goes through before it is prepared.
 */
module SqlText {
  import opened BasicTypes

  function EscapeChar(c: char): string {
    if c == '\'' then "''" else [c]
  }

  function EscapeValue(value: string): string {
    if value == [] then [] else EscapeChar(value[0]) + EscapeValue(value[1..])
  }

  function Quote(value: string): string {
    "'" + EscapeValue(value) + "'"
  }

  /** The half-open interval of written times, on one column. */
  function TimePredicate(column: string, from: string, to: string): string {
    TimeFrom(column, from) + " AND " + TimeTo(column, to)
  }

  function TimeFrom(column: string, from: string): string {
    column + " >= TIMESTAMP " + Quote(from)
  }

  function TimeTo(column: string, to: string): string {
    column + " < TIMESTAMP " + Quote(to)
  }

  // ----- Reading SQL text -----

  datatype Token = Word(text: string) | Symbol(c: char) | Literal(value: string)

  predicate IsWordChar(c: char) {
    '0' <= c <= '9' || 'a' <= c <= 'z' || 'A' <= c <= 'Z' || c == '_'
  }

  /** A literal after its opening quote: a doubled quote stands for one, a single one ends it. */
  function ReadLiteral(s: string): (r: Option<(string, string)>)
    ensures r.Some? ==> |r.value.1| < |s|
  {
    if s == [] then None
    else if s[0] == '\'' && (|s| == 1 || s[1] != '\'') then Some(([], s[1..]))
    else
      match ReadLiteral(s[if s[0] == '\'' then 2 else 1..])
      case None => None
      case Some((value, rest)) => Some(([s[0]] + value, rest))
  }

  function WordLength(s: string): (n: nat)
    ensures n <= |s|
  {
    if s == [] || !IsWordChar(s[0]) then 0 else 1 + WordLength(s[1..])
  }

  function Before(t: Token, r: Option<seq<Token>>): Option<seq<Token>> {
    if r.None? then None else Some([t] + r.value)
  }

  /** The tokens of a text, unless it ends inside a literal. */
  function Lex(s: string): Option<seq<Token>>
    decreases |s|
  {
    if s == [] then Some([])
    else if s[0] == ' ' then Lex(s[1..])
    else if s[0] == '\'' then
      match ReadLiteral(s[1..])
      case None => None
      case Some((value, rest)) => Before(Literal(value), Lex(rest))
    else if IsWordChar(s[0]) then Before(Word(s[..WordLength(s)]), Lex(s[WordLength(s)..]))
    else Before(Symbol(s[0]), Lex(s[1..]))
  }

  // ----- Quoted literals are read back -----

  lemma EndReads(rest: string)
    requires rest == [] || rest[0] != '\''
    ensures ReadLiteral("'" + rest) == Some(([], rest))
  {
    assert ("'" + rest)[1..] == rest;
  }

  lemma CharReads(c: char, later: string)
    requires ReadLiteral(later).Some?
    ensures ReadLiteral(EscapeChar(c) + later) == Some(([c] + ReadLiteral(later).value.0, ReadLiteral(later).value.1))
  {
    var s := EscapeChar(c) + later;
    assert s[if c == '\'' then 2 else 1..] == later;
    assert s[0] == c && (c == '\'' ==> s[1] == '\'');
  }

  lemma {:induction false} QuoteReads(value: string, rest: string)
    requires rest == [] || rest[0] != '\''
    ensures ReadLiteral(EscapeValue(value) + ("'" + rest)) == Some((value, rest))
  {
    hide ReadLiteral, EscapeChar;
    var end := "'" + rest;
    if value == [] {
      assert EscapeValue(value) + end == end;
      EndReads(rest);
    } else {
      QuoteReads(value[1..], rest);
      var later := EscapeValue(value[1..]) + end;
      CharReads(value[0], later);
      assert EscapeValue(value) + end == EscapeChar(value[0]) + later;
      assert [value[0]] + value[1..] == value;
    }
  }

  /** Whatever it contains, a quoted value is one token with that value. */
  lemma QuoteLexes(value: string, rest: string)
    requires rest == [] || rest[0] != '\''
    ensures Lex(Quote(value) + rest) == Before(Literal(value), Lex(rest))
  {
    hide ReadLiteral, EscapeValue;
    QuoteReads(value, rest);
    var later := EscapeValue(value) + ("'" + rest);
    assert Quote(value) + rest == "'" + later;
    OpeningLexes(later);
  }

  lemma OpeningLexes(later: string)
    requires ReadLiteral(later).Some?
    ensures Lex("'" + later) == Before(Literal(ReadLiteral(later).value.0), Lex(ReadLiteral(later).value.1))
  {
    hide ReadLiteral, WordLength;
    assert ("'" + later)[1..] == later;
  }

  // ----- Lexing piece by piece -----

  lemma {:induction false} WordLengthAt(w: string, rest: string)
    requires (forall i | 0 <= i < |w| :: IsWordChar(w[i])) && (rest == [] || !IsWordChar(rest[0]))
    ensures WordLength(w + rest) == |w|
  {
    if w == [] {
      assert w + rest == rest;
    } else {
      assert (w + rest)[1..] == w[1..] + rest;
      WordLengthAt(w[1..], rest);
    }
  }

  lemma WordLexes(w: string, rest: string)
    requires w != [] && (forall i | 0 <= i < |w| :: IsWordChar(w[i])) && (rest == [] || !IsWordChar(rest[0]))
    ensures Lex(w + rest) == Before(Word(w), Lex(rest))
  {
    WordLengthAt(w, rest);
    assert (w + rest)[0] == w[0];
    assert (w + rest)[..|w|] == w && (w + rest)[|w|..] == rest;
  }

  lemma SymbolLexes(c: char, rest: string)
    requires c != ' ' && c != '\'' && !IsWordChar(c)
    ensures Lex([c] + rest) == Before(Symbol(c), Lex(rest))
  {
    assert ([c] + rest)[1..] == rest;
  }

  lemma SpaceLexes(rest: string)
    ensures Lex(" " + rest) == Lex(rest)
  {
    assert (" " + rest)[1..] == rest;
  }

  /** Two texts whose tokens stay apart where they meet. */
  predicate Apart(a: string, b: string) {
    a == [] || b == [] ||
    (!(IsWordChar(a[|a| - 1]) && IsWordChar(b[0])) && !(a[|a| - 1] == '\'' && b[0] == '\''))
  }

  /** What remains is the end of the text. */
  lemma {:induction false} RestOfLiteral(s: string)
    requires ReadLiteral(s).Some?
    ensures var rest := ReadLiteral(s).value.1; rest == s[|s| - |rest|..]
  {
    if !(s[0] == '\'' && (|s| == 1 || s[1] != '\'')) {
      RestOfLiteral(s[if s[0] == '\'' then 2 else 1..]);
    }
  }

  lemma {:induction false} ReadLiteralConcat(s: string, b: string)
    requires ReadLiteral(s).Some? && Apart(s, b)
    ensures ReadLiteral(s + b) == Some((ReadLiteral(s).value.0, ReadLiteral(s).value.1 + b))
    decreases |s|
  {
    if s[0] == '\'' && (|s| == 1 || s[1] != '\'') {
      assert (s + b)[1..] == s[1..] + b;
    } else {
      var step := if s[0] == '\'' then 2 else 1;
      var t := s[step..];
      assert t != [] ==> t[|t| - 1] == s[|s| - 1];
      ReadLiteralConcat(t, b);
      LiteralStep(s, b, step);
    }
  }

  lemma LiteralStep(s: string, b: string, step: nat)
    requires s != [] && !(s[0] == '\'' && (|s| == 1 || s[1] != '\''))
    requires step == if s[0] == '\'' then 2 else 1
    requires ReadLiteral(s[step..]).Some?
    requires ReadLiteral(s[step..] + b) == Some((ReadLiteral(s[step..]).value.0, ReadLiteral(s[step..]).value.1 + b))
    ensures ReadLiteral(s + b) == Some((ReadLiteral(s).value.0, ReadLiteral(s).value.1 + b))
  {
    assert (s + b)[step..] == s[step..] + b;
    assert (s + b)[0] == s[0] && (|s| > 1 ==> (s + b)[1] == s[1]);
  }

  lemma {:induction false} WordLengthConcat(s: string, b: string)
    requires s != [] && IsWordChar(s[0]) && Apart(s, b)
    ensures WordLength(s + b) == WordLength(s)
  {
    assert (s + b)[1..] == s[1..] + b;
    if |s| == 1 {
      assert s[1..] + b == b;
    } else if IsWordChar(s[1]) {
      assert s[1..][|s| - 2] == s[|s| - 1];
      WordLengthConcat(s[1..], b);
    }
  }

  function Joined(a: Option<seq<Token>>, b: Option<seq<Token>>): Option<seq<Token>> {
    if a.None? || b.None? then None else Some(a.value + b.value)
  }

  lemma BeforeJoined(t: Token, a: Option<seq<Token>>, b: Option<seq<Token>>)
    ensures Joined(Before(t, a), b) == Before(t, Joined(a, b))
  {
    if a.Some? && b.Some? {
      assert [t] + a.value + b.value == [t] + (a.value + b.value);
    }
  }

  /** A closed text followed by another lexes to the tokens of both. */
  lemma {:induction false} LexConcat(a: string, b: string)
    requires Lex(a).Some? && Apart(a, b)
    ensures Lex(a + b) == Joined(Lex(a), Lex(b))
    decreases |a|
  {
    hide ReadLiteral, WordLength;
    if a == [] {
      assert a + b == b;
      assert Lex(b).Some? ==> [] + Lex(b).value == Lex(b).value;
    } else {
      var tail: string;
      if a[0] == '\'' {
        var (value, rest) := ReadLiteral(a[1..]).value;
        assert (a + b)[1..] == a[1..] + b;
        ReadLiteralConcat(a[1..], b);
        RestOfLiteral(a[1..]);
        tail := rest;
        BeforeJoined(Literal(value), Lex(tail), Lex(b));
      } else if a[0] != ' ' && IsWordChar(a[0]) {
        var n := WordLength(a);
        WordLengthConcat(a, b);
        assert n > 0 by { WordStarts(a); }
        tail := a[n..];
        assert (a + b)[..n] == a[..n] && (a + b)[n..] == tail + b;
        BeforeJoined(Word(a[..n]), Lex(tail), Lex(b));
      } else {
        tail := a[1..];
        assert (a + b)[1..] == tail + b;
        BeforeJoined(Symbol(a[0]), Lex(tail), Lex(b));
      }
      assert tail != [] ==> tail[|tail| - 1] == a[|a| - 1];
      LexConcat(tail, b);
    }
  }

  lemma WordStarts(s: string)
    requires s != [] && IsWordChar(s[0])
    ensures WordLength(s) > 0
  {
  }
}
