/**
 The replacement of `{prefix}` in a finished statement (`src/query/mod.rs`), and when it
 leaves literals alone.
 */
module SqlPrefix {
  import opened BasicTypes
  import opened Text
  import opened SqlText

  const PREFIX := "{prefix}"

  /** Every occurrence, from left to right, is replaced. */
  function Replaced(s: string, pat: string, replacement: string): string
    requires pat != []
    decreases |s|
  {
    match Find(s, pat)
    case None => s
    case Some(i) => s[..i] + replacement + Replaced(s[i + |pat|..], pat, replacement)
  }

  /** A longer replacement makes the text longer, a shorter one shorter, if there is anything to replace. */
  lemma {:induction false} ReplacedLength(s: string, pat: string, replacement: string)
    requires pat != []
    ensures |replacement| > |pat| ==> |Replaced(s, pat, replacement)| >= |s| + if Contains(s, pat) then 1 else 0
    ensures |replacement| < |pat| ==> |Replaced(s, pat, replacement)| <= |s| - if Contains(s, pat) then 1 else 0
    decreases |s|
  {
    var i := Find(s, pat);
    if i.Some? {
      ReplacedLength(s[i.value + |pat|..], pat, replacement);
    }
  }

  lemma {:induction false} ReplacedBySame(s: string, pat: string)
    requires pat != []
    ensures Replaced(s, pat, pat) == s
    decreases |s|
  {
    var i := Find(s, pat);
    if i.Some? {
      ReplacedBySame(s[i.value + |pat|..], pat);
      assert s[i.value..][..|pat|] == pat;
      assert s == s[..i.value] + pat + s[i.value + |pat|..];
    }
  }

  /** The text stays as it is exactly if it has no occurrence, or each is replaced by itself. */
  lemma UnchangedExactlyWhen(s: string, pat: string, replacement: string)
    requires pat != []
    ensures Replaced(s, pat, replacement) == s <==> !Contains(s, pat) || replacement == pat
  {
    var i := Find(s, pat);
    if replacement == pat {
      ReplacedBySame(s, pat);
    } else if i.Some? {
      if |replacement| == |pat| {
        var r := Replaced(s, pat, replacement);
        assert r[i.value..][..|pat|] == replacement;
        assert s[i.value..][..|pat|] == pat;
      } else {
        ReplacedLength(s, pat, replacement);
      }
    }
  }

  // ----- Occurrences and quotes -----

  /** A character the pattern lacks keeps the texts on its sides apart. */
  lemma FreeAcross(a: string, c: char, b: string, pat: string)
    requires pat != [] && c !in pat
    ensures Contains(a + [c] + b, pat) <==> Contains(a, pat) || Contains(b, pat)
  {
    var s := a + [c] + b;
    if Contains(a, pat) {
      var i := Find(a, pat).value;
      assert a[i..][..|pat|] == pat;
      assert s[i..][..|pat|] == a[i..][..|pat|];
    }
    if Contains(b, pat) {
      var i := Find(b, pat).value;
      assert s[|a| + 1 + i..] == b[i..];
    }
    if Contains(s, pat) {
      OnOneSide(a, c, b, pat, Find(s, pat).value);
    }
  }

  lemma OnOneSide(a: string, c: char, b: string, pat: string, i: nat)
    requires pat != [] && c !in pat && i <= |a + [c] + b| && pat <= (a + [c] + b)[i..]
    ensures Contains(a, pat) || Contains(b, pat)
  {
    var s := a + [c] + b;
    assert s[|a|] == c;
    if i + |pat| <= |a| {
      assert a[i..][..|pat|] == s[i..][..|pat|];
      assert pat <= a[i..];
    } else if i > |a| {
      assert s[i..] == b[i - |a| - 1..];
    } else {
      NotAcross(a, c, b, pat, i);
    }
  }

  lemma NotAcross(a: string, c: char, b: string, pat: string, i: nat)
    requires c !in pat && i <= |a| < i + |pat|
    ensures !(pat <= (a + [c] + b)[i..])
  {
    var s := a + [c] + b;
    assert s[i..][|a| - i] == c;
    assert pat[|a| - i] in pat;
  }

  lemma {:induction false} PrefixOfEscaped(value: string, pat: string)
    requires '\'' !in pat
    ensures pat <= EscapeValue(value) <==> pat <= value
    decreases |value|
  {
    if value != [] && pat != [] {
      var e := EscapeValue(value);
      assert pat[0] in pat;
      assert e[0] == value[0];
      if value[0] != '\'' {
        assert '\'' !in pat[1..];
        PrefixOfEscaped(value[1..], pat[1..]);
        assert e[1..] == EscapeValue(value[1..]);
        assert pat <= e <==> pat[0] == e[0] && pat[1..] <= e[1..];
        assert pat <= value <==> pat[0] == value[0] && pat[1..] <= value[1..];
      }
    }
  }

  lemma ContainsCons(s: string, pat: string)
    requires pat != [] && s != []
    ensures Contains(s, pat) <==> pat <= s || Contains(s[1..], pat)
  {
  }

  lemma {:induction false} EscapedContains(value: string, pat: string)
    requires pat != [] && '\'' !in pat
    ensures Contains(EscapeValue(value), pat) <==> Contains(value, pat)
  {
    hide Find;
    if value != [] {
      EscapedContains(value[1..], pat);
      PrefixOfEscaped(value, pat);
      var e, later := EscapeValue(value), EscapeValue(value[1..]);
      ContainsCons(value, pat);
      ContainsCons(e, pat);
      if value[0] == '\'' {
        assert e[1..] == "'" + later && e[1..][0] == '\'' != pat[0];
        ContainsCons(e[1..], pat);
        assert e[1..][1..] == later;
      } else {
        assert e[1..] == later;
      }
    }
  }

  /** A quoted literal survives the replacement exactly if its value has no `{prefix}` in it. */
  lemma LiteralSurvives(value: string, prefix: string)
    ensures Replaced(Quote(value), PREFIX, prefix) == Quote(value) <==> !Contains(value, PREFIX) || prefix == PREFIX
  {
    UnchangedExactlyWhen(Quote(value), PREFIX, prefix);
    QuotedContains(value, PREFIX);
  }

  lemma QuotedContains(value: string, pat: string)
    requires pat != [] && '\'' !in pat
    ensures Contains(Quote(value), pat) <==> Contains(value, pat)
  {
    var e := EscapeValue(value);
    EscapedContains(value, pat);
    hide EscapeValue;
    FreeAcross([], '\'', e, pat);
    FreeAcross([] + ['\''] + e, '\'', [], pat);
    hide Find;
    assert Quote(value) == [] + ['\''] + e + ['\''] + [];
    assert !Contains([], pat) by { NothingInEmpty(pat); }
  }

  lemma NothingInEmpty(pat: string)
    requires pat != []
    ensures !Contains([], pat)
  {
  }

  // ----- Whole statements -----

  /** A literal is written as its quoted value. */
  lemma {:induction false} ReadsQuoted(s: string)
    requires ReadLiteral(s).Some?
    ensures s == EscapeValue(ReadLiteral(s).value.0) + (['\''] + ReadLiteral(s).value.1)
    decreases |s|
  {
    if s[0] == '\'' && (|s| == 1 || s[1] != '\'') {
      assert s == [] + (['\''] + s[1..]);
    } else {
      var step := if s[0] == '\'' then 2 else 1;
      ReadsQuoted(s[step..]);
      var r := ReadLiteral(s[step..]).value;
      assert ReadLiteral(s) == Some(([s[0]] + r.0, r.1));
      assert s == EscapeChar(s[0]) + s[step..];
      EscapedFirst(s[0], r.0, s[step..], ['\''] + r.1);
    }
  }

  lemma EscapedFirst(c: char, later: string, tail: string, end: string)
    requires tail == EscapeValue(later) + end
    ensures EscapeChar(c) + tail == EscapeValue([c] + later) + end
  {
    assert ([c] + later)[1..] == later;
    hide EscapeChar;
    assert EscapeChar(c) + (EscapeValue(later) + end) == EscapeChar(c) + EscapeValue(later) + end;
  }

  /** A text without the pattern's first character adds no occurrence before another. */
  lemma {:induction false} FreeBefore(a: string, b: string, pat: string)
    requires pat != [] && pat[0] !in a
    ensures Contains(a + b, pat) <==> Contains(b, pat)
  {
    if a == [] {
      assert a + b == b;
    } else {
      assert a[0] in a && (a + b)[0] == a[0] && (a + b)[1..] == a[1..] + b;
      FreeBefore(a[1..], b, pat);
      ContainsCons(a + b, pat);
      hide Find;
    }
  }

  ghost predicate LiteralWithPrefix(ts: seq<Token>) {
    exists i | 0 <= i < |ts| :: ts[i].Literal? && Contains(ts[i].value, PREFIX)
  }

  lemma LiteralOrLater(t: Token, ts: seq<Token>)
    ensures LiteralWithPrefix([t] + ts) <==> (t.Literal? && Contains(t.value, PREFIX)) || LiteralWithPrefix(ts)
  {
    hide Find;
    var all := [t] + ts;
    if LiteralWithPrefix(ts) {
      var i :| 0 <= i < |ts| && ts[i].Literal? && Contains(ts[i].value, PREFIX);
      assert all[i + 1] == ts[i];
    }
    assert all[0] == t;
  }

  /** The first token of a text, and the text after it. */
  lemma FirstToken(s: string) returns (t: Token, own: string, rest: string)
    requires Lex(s).Some? && s != [] && s[0] != ' '
    ensures Lex(s) == Before(t, Lex(rest)) && s == own + rest && |rest| < |s|
    ensures t.Literal? <==> s[0] == '\''
    ensures t.Literal? ==> own == ['\''] + EscapeValue(t.value) + ['\'']
    ensures !t.Literal? ==> t == Symbol('{') || '{' !in own
  {
    hide ReadLiteral, EscapeValue;
    if s[0] == '\'' {
      var r := ReadLiteral(s[1..]).value;
      ReadsQuoted(s[1..]);
      t, own, rest := Literal(r.0), ['\''] + EscapeValue(r.0) + ['\''], r.1;
      assert s == ['\''] + s[1..];
    } else if IsWordChar(s[0]) {
      var n := WordLength(s);
      WordHasNoBrace(s);
      t, own, rest := Word(s[..n]), s[..n], s[n..];
    } else {
      t, own, rest := Symbol(s[0]), s[..1], s[1..];
    }
  }

  lemma LiteralFree(value: string, rest: string)
    ensures Contains(['\''] + EscapeValue(value) + ['\''] + rest, PREFIX) <==>
      Contains(value, PREFIX) || Contains(rest, PREFIX)
  {
    hide Find;
    EscapedContains(value, PREFIX);
    hide EscapeValue;
    var e := EscapeValue(value);
    FreeAcross(e, '\'', rest, PREFIX);
    FreeBefore(['\''], e + ['\''] + rest, PREFIX);
    assert ['\''] + e + ['\''] + rest == ['\''] + (e + ['\''] + rest);
  }

  /** Outside its literals a text without braces has no `{prefix}`. */
  lemma {:induction false} PrefixOnlyInLiterals(s: string)
    requires Lex(s).Some? && Symbol('{') !in Lex(s).value
    ensures Contains(s, PREFIX) <==> LiteralWithPrefix(Lex(s).value)
    decreases |s|
  {
    hide Find, ReadLiteral, WordLength, LiteralWithPrefix, EscapeValue;
    if s == [] {
      NothingInEmpty(PREFIX);
      NoLiteral();
    } else if s[0] == ' ' {
      assert s == [' '] + s[1..];
      FreeBefore([' '], s[1..], PREFIX);
      PrefixOnlyInLiterals(s[1..]);
    } else {
      var t, own, rest := FirstToken(s);
      hide Lex;
      assert t in Lex(s).value && forall u | u in Lex(rest).value :: u in Lex(s).value;
      PrefixOnlyInLiterals(rest);
      LiteralOrLater(t, Lex(rest).value);
      if t.Literal? {
        LiteralFree(t.value, rest);
      } else {
        FreeBefore(own, rest, PREFIX);
      }
    }
  }

  lemma NoLiteral()
    ensures !LiteralWithPrefix([])
  {
  }

  lemma {:induction false} WordHasNoBrace(s: string)
    ensures '{' !in s[..WordLength(s)]
  {
    if s != [] && IsWordChar(s[0]) {
      WordHasNoBrace(s[1..]);
      assert s[..WordLength(s)] == [s[0]] + s[1..][..WordLength(s[1..])];
    }
  }

  /**
   Replacing `{prefix}` leaves a text without braces outside its literals as it is exactly
   if no literal in it contains `{prefix}`, or it is replaced by itself.
   */
  lemma TextSurvivesExactlyWhen(s: string, prefix: string)
    requires Lex(s).Some? && Symbol('{') !in Lex(s).value
    ensures Replaced(s, PREFIX, prefix) == s <==> !LiteralWithPrefix(Lex(s).value) || prefix == PREFIX
  {
    hide Find, Lex, LiteralWithPrefix;
    PrefixOnlyInLiterals(s);
    UnchangedExactlyWhen(s, PREFIX, prefix);
  }
}
