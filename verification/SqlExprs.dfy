/**
 The SQL expressions labels are read from (`src/db/sql.rs`, `src/semantic_labels.rs`). Every
 expression the registry can hold is closed, which is what lowering asks of it.
 */
module SqlExprs {
  import opened BasicTypes
  import opened Text
  import opened Labels
  import opened Parens
  import opened SqlText
  import opened SqlCondition
  import opened SqlMeaning

  function JsonAttr(column: string, key: string): string {
    "json_extract_string(" + column + ", '$.\"" + key + "\"')"
  }

  function JsonAttrI32(column: string, key: string): string {
    "try_cast(" + JsonAttr(column, key) + " AS INTEGER)"
  }

  function CoalesceExpr(exprs: seq<string>): string {
    "coalesce(" + Join(exprs, ", ") + ")"
  }

  /** Where a label is read from. */
  datatype LabelSource =
    | Column(name: string)
    | Attr(column: string, key: string)
    | FirstAttr(column: string, keys: seq<string>)
    | FirstAttrI32(column: string, codes: seq<string>)
    | LowerHex(name: string)
    | Missing

  function Expr(s: LabelSource): string {
    match s
    case Column(name) => name
    case Attr(column, key) => JsonAttr(column, key)
    case FirstAttr(column, keys) => CoalesceExpr(seq(|keys|, i requires 0 <= i < |keys| => JsonAttr(column, keys[i])))
    case FirstAttrI32(column, codes) =>
      CoalesceExpr(seq(|codes|, i requires 0 <= i < |codes| => JsonAttrI32(column, codes[i])))
    case LowerHex(name) => "lower(" + name + ")"
    case Missing => "NULL"
  }

  predicate IsWord(s: string) {
    s != [] && forall i | 0 <= i < |s| :: IsWordChar(s[i])
  }

  /** Columns are words, and attribute keys have no quotes in them. */
  predicate WellNamed(s: LabelSource) {
    match s
    case Column(name) => IsWord(name)
    case Attr(column, key) => IsWord(column) && '\'' !in key
    case FirstAttr(column, keys) => IsWord(column) && forall i | 0 <= i < |keys| :: '\'' !in keys[i]
    case FirstAttrI32(column, codes) => IsWord(column) && forall i | 0 <= i < |codes| :: '\'' !in codes[i]
    case LowerHex(name) => IsWord(name)
    case Missing => true
  }

  // ----- Building closed expressions -----

  lemma WordClosed(w: string)
    requires IsWord(w)
    ensures Closed(w)
  {
    WordAloneLexes(w);
    NoParensBalanced(1, Skeleton([Word(w)]));
  }

  lemma LiteralClosed(value: string)
    ensures Closed(Quote(value))
  {
    LoneQuoteLexes(value);
    NoParensBalanced(1, Skeleton([Literal(value)]));
  }

  lemma CallLexes(name: string, args: string, ts: seq<Token>)
    requires IsWord(name) && Lex(args) == Some(ts)
    ensures Lex(name + "(" + args + ")") == Some([Word(name)] + ([Symbol('(')] + (ts + [Symbol(')')])))
  {
    hide Lex;
    EmptyLexes();
    SymbolLexes(')', "");
    assert [')'] + "" == ")" && [Symbol(')')] + [] == [Symbol(')')];
    LexConcat(args, ")");
    SymbolLexes('(', args + ")");
    WordLexes(name, ['('] + (args + ")"));
    assert name + "(" + args + ")" == name + (['('] + (args + ")"));
  }

  /** A call of a function with closed arguments. */
  lemma CallClosed(name: string, args: string)
    requires IsWord(name) && Closed(args)
    ensures Closed(name + "(" + args + ")")
  {
    hide Lex, Skeleton, DepthAfter;
    CallLexes(name, args, Lex(args).value);
    CallBalanced(name, Lex(args).value);
  }

  lemma CallBalanced(name: string, ts: seq<Token>)
    requires Balanced(Skeleton(ts))
    ensures Balanced(Skeleton([Word(name)] + ([Symbol('(')] + (ts + [Symbol(')')]))))
  {
    NoParensBalanced(1, " ");
    hide DepthAfter;
    BalancedWrapped(Skeleton(ts));
    BalancedConcat(" ", "(" + Skeleton(ts) + ")");
    assert Skeleton([Word(name)] + ([Symbol('(')] + (ts + [Symbol(')')]))) == " " + ("(" + Skeleton(ts) + ")");
  }

  /** Two closed texts with a closed separator that keeps them apart. */
  lemma PairClosed(a: string, sep: string, b: string)
    requires Closed(a) && Closed(sep) && Closed(b)
    requires sep != [] && (sep[0] == ' ' || sep[0] == ',') && sep[|sep| - 1] == ' '
    ensures Closed(a + sep + b)
  {
    hide Lex, Skeleton, DepthAfter;
    LexConcat(sep, b);
    LexConcat(a, sep + b);
    assert a + sep + b == a + (sep + b);
    var x, y, z := Lex(a).value, Lex(sep).value, Lex(b).value;
    SkeletonConcat(y, z);
    SkeletonConcat(x, y + z);
    BalancedConcat(Skeleton(y), Skeleton(z));
    BalancedConcat(Skeleton(x), Skeleton(y) + Skeleton(z));
  }

  lemma CommaClosed()
    ensures Closed(", ")
  {
    NoParensBalanced(1, Skeleton([Symbol(',')]));
    hide Lex, Skeleton, DepthAfter;
    EmptyLexes();
    SpaceLexes("");
    SymbolLexes(',', " " + "");
    assert [','] + (" " + "") == ", " && [Symbol(',')] + [] == [Symbol(',')];
  }

  lemma CastClosed()
    ensures Closed(" AS ")
  {
    NoParensBalanced(1, Skeleton([Word("AS")]));
    hide Lex, Skeleton, DepthAfter;
    SpacedWordLexes("AS");
    assert " " + "AS" + " " == " AS ";
  }

  lemma {:induction false} ListClosed(exprs: seq<string>)
    requires forall i | 0 <= i < |exprs| :: Closed(exprs[i])
    ensures Closed(Join(exprs, ", "))
    decreases |exprs|
  {
    if exprs == [] {
      NoParensBalanced(1, Skeleton([]));
      EmptyLexes();
    } else {
      hide Closed;
      if |exprs| > 1 {
        ListClosed(exprs[1..]);
        CommaClosed();
        PairClosed(exprs[0], ", ", Join(exprs[1..], ", "));
      }
    }
  }

  lemma {:induction false} PlainIsEscaped(value: string)
    requires '\'' !in value
    ensures EscapeValue(value) == value
  {
    if value != [] {
      assert value[0] in value;
      PlainIsEscaped(value[1..]);
    }
  }

  lemma AttrClosed(column: string, key: string)
    requires IsWord(column) && '\'' !in key
    ensures Closed(JsonAttr(column, key))
  {
    hide Closed;
    var path := "$.\"" + key + "\"";
    WordClosed(column);
    CommaClosed();
    LiteralClosed(path);
    PairClosed(column, ", ", Quote(path));
    assert IsWord("json_extract_string");
    CallClosed("json_extract_string", column + ", " + Quote(path));
    PlainIsEscaped(path);
    AttrText(column, key);
  }

  lemma AttrText(column: string, key: string)
    requires EscapeValue("$.\"" + key + "\"") == "$.\"" + key + "\""
    ensures "json_extract_string" + "(" + (column + ", " + Quote("$.\"" + key + "\"")) + ")" == JsonAttr(column, key)
  {
    hide EscapeValue;
    assert "json_extract_string" + "(" == "json_extract_string(";
    assert ", " + "'" + "$.\"" == ", '$.\"" && "\"" + "'" + ")" == "\"')";
  }

  lemma AttrI32Closed(column: string, key: string)
    requires IsWord(column) && '\'' !in key
    ensures Closed(JsonAttrI32(column, key))
  {
    hide Closed, JsonAttr;
    AttrClosed(column, key);
    CastClosed();
    WordClosed("INTEGER");
    PairClosed(JsonAttr(column, key), " AS ", "INTEGER");
    CallClosed("try_cast", JsonAttr(column, key) + " AS " + "INTEGER");
    CastText(JsonAttr(column, key));
  }

  lemma CastText(operand: string)
    ensures "try_cast" + "(" + (operand + " AS " + "INTEGER") + ")" == "try_cast(" + operand + " AS INTEGER)"
  {
    assert "try_cast" + "(" == "try_cast(" && " AS " + "INTEGER" + ")" == " AS INTEGER)";
  }

  /** Every expression a label can be read from is closed. */
  lemma ExprClosed(s: LabelSource)
    requires WellNamed(s)
    ensures Closed(Expr(s))
  {
    hide Closed, JsonAttr, JsonAttrI32, Join;
    match s
    case Column(name) => WordClosed(name);
    case Attr(column, key) => AttrClosed(column, key);
    case FirstAttr(column, keys) =>
      var exprs := seq(|keys|, i requires 0 <= i < |keys| => JsonAttr(column, keys[i]));
      forall i | 0 <= i < |exprs| ensures Closed(exprs[i]) { AttrClosed(column, keys[i]); }
      CoalesceClosed(exprs);
    case FirstAttrI32(column, codes) =>
      var exprs := seq(|codes|, i requires 0 <= i < |codes| => JsonAttrI32(column, codes[i]));
      forall i | 0 <= i < |exprs| ensures Closed(exprs[i]) { AttrI32Closed(column, codes[i]); }
      CoalesceClosed(exprs);
    case LowerHex(name) =>
      WordClosed(name);
      CallClosed("lower", name);
      assert "lower" + "(" == "lower(";
    case Missing => WordClosed("NULL");
  }

  lemma CoalesceClosed(exprs: seq<string>)
    requires forall i | 0 <= i < |exprs| :: Closed(exprs[i])
    ensures Closed(CoalesceExpr(exprs))
  {
    hide Closed, Join;
    ListClosed(exprs);
    CallClosed("coalesce", Join(exprs, ", "));
    assert "coalesce" + "(" == "coalesce(";
  }

  /** A registry whose labels are read from such sources. */
  ghost predicate FromSources(reg: Registry) {
    forall i, j | 0 <= i < |reg| && 0 <= j < |reg[i].sources| :: IsSource(reg[i].sources[j].1)
  }

  ghost predicate IsSource(expr: string) {
    exists s: LabelSource :: WellNamed(s) && Expr(s) == expr
  }

  lemma {:induction false} SourceForIsOne(sources: seq<(Scope, string)>, scope: Scope)
    ensures SourceFor(sources, scope).Some? ==>
      exists j :: 0 <= j < |sources| && sources[j].1 == SourceFor(sources, scope).value
  {
    if sources != [] && sources[0].0 != scope {
      SourceForIsOne(sources[1..], scope);
      if SourceFor(sources, scope).Some? {
        var j :| 0 <= j < |sources[1..]| && sources[1..][j].1 == SourceFor(sources, scope).value;
        assert sources[j + 1].1 == SourceFor(sources, scope).value;
      }
    }
  }

  lemma {:induction false} DefIsOne(reg: Registry, scope: Scope, name: string)
    ensures DefOf(reg, scope, name).Some? ==> DefOf(reg, scope, name).value in reg
  {
    if reg != [] {
      DefIsOne(reg[1..], scope, name);
    }
  }

  /** Such a registry meets the demand of lowering, in every scope. */
  lemma SourcesAreClosed(reg: Registry, scope: Scope)
    requires FromSources(reg)
    ensures ClosedRegistry(reg, scope)
  {
    hide Closed, Expr, WellNamed;
    forall name | LabelExpr(reg, scope, name).Some? ensures Closed(LabelExpr(reg, scope, name).value) {
      var expr := LabelExpr(reg, scope, name).value;
      DefIsOne(reg, scope, name);
      var def := DefOf(reg, scope, name).value;
      var i :| 0 <= i < |reg| && reg[i] == def;
      SourceForIsOne(def.sources, scope);
      var j :| 0 <= j < |def.sources| && def.sources[j].1 == expr;
      assert IsSource(reg[i].sources[j].1);
      var s: LabelSource :| WellNamed(s) && Expr(s) == expr;
      ExprClosed(s);
    }
  }
}
