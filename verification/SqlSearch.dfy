/**
 Text search as it is written (`src/query/mod.rs:356-385`): what a list of terms joined by an
 operator finds, and what becomes of an operator that is not in capitals.
 */
module SqlSearch {
  import opened BasicTypes
  import opened Text
  import opened SqlCondition
  import opened SqlMeaning

  predicate AndAt(text: string, i: nat) {
    && i + 5 <= |text| && text[i] == ' ' && text[i + 1] in {'a', 'A'} && text[i + 2] in {'n', 'N'}
    && text[i + 3] in {'d', 'D'} && text[i + 4] == ' '
  }

  /** The text has neither operator in any case, not even against the spaces around it. */
  ghost predicate NoOperatorIn(t: string) {
    var padded := " " + t + " ";
    forall i: nat :: !OrAt(padded, i) && !AndAt(padded, i)
  }

  ghost predicate PlainTerm(t: string) {
    t != [] && Trimmed(t) && NoOperatorIn(t)
  }

  ghost predicate PlainTerms(terms: seq<string>) {
    terms != [] && forall i | 0 <= i < |terms| :: PlainTerm(terms[i])
  }

  function Word(disjunction: bool): string {
    if disjunction then " OR " else " AND "
  }

  // ----- Operators in a joined text -----

  /** A written operator is found at its place and nowhere before. */
  lemma OperatorSplits(a: string, disjunction: bool, b: string)
    requires PlainTerm(a)
    ensures SplitOnce(a + Word(disjunction) + b, Word(disjunction)) == Some((a, b))
  {
    var pat := Word(disjunction);
    var text := a + pat + b;
    forall j | 0 <= j < |a| ensures !(pat <= text[j..]) {
      if pat <= text[j..] {
        PatternAt(a, pat, b, j);
        OperatorInPadded(a, pat, j);
        assert false;
      }
    }
    FindAt(a, pat, b);
  }

  /** An occurrence that begins in the term ends by the first space after it. */
  lemma PatternAt(a: string, pat: string, b: string, j: nat)
    requires (pat == " OR " || pat == " AND ") && j < |a| && pat <= (a + pat + b)[j..]
    ensures j + |pat| <= |a| + 1 && pat <= (a + " ")[j..]
  {
    var text, n := a + pat + b, |pat|;
    assert text[j..j + n] == text[j..][..n] == pat;
    assert text[|a|] == ' ';
    assert |a| < j + n ==> text[|a|] == text[j..j + n][|a| - j];
    assert forall k | 0 < k < n - 1 :: pat[k] != ' ';
    assert text[..|a| + 1] == a + " ";
    assert (a + " ")[j..j + n] == text[j..j + n];
  }

  lemma OperatorInPadded(a: string, pat: string, j: nat)
    requires (pat == " OR " || pat == " AND ") && j + |pat| <= |a| + 1 && pat <= (a + " ")[j..]
    ensures !NoOperatorIn(a)
  {
    var padded, s := " " + a + " ", a + " ";
    assert padded == " " + s;
    var found := padded[j + 1..j + 1 + |pat|];
    assert found == s[j..j + |pat|] == s[j..][..|pat|] == pat;
    WrittenOperator(padded, j + 1, pat);
  }

  lemma WrittenOperator(text: string, i: nat, pat: string)
    requires (pat == " OR " || pat == " AND ") && i + |pat| <= |text| && text[i..i + |pat|] == pat
    ensures OrAt(text, i) || AndAt(text, i)
  {
    var found := text[i..i + |pat|];
    assert found[0] == text[i] && found[1] == text[i + 1] && found[2] == text[i + 2] && found[3] == text[i + 3];
    if pat == " AND " {
      assert found[4] == text[i + 4];
    }
  }

  /** Only the four characters matter. */
  lemma OrMoved(text: string, i: nat, other: string, j: nat)
    requires OrAt(text, i) && j + 4 <= |other| && other[j..j + 4] == text[i..i + 4]
    ensures OrAt(other, j)
  {
    var found, moved := text[i..i + 4], other[j..j + 4];
    assert found[0] == text[i] && found[1] == text[i + 1] && found[2] == text[i + 2] && found[3] == text[i + 3];
    assert moved[0] == other[j] && moved[1] == other[j + 1] && moved[2] == other[j + 2] && moved[3] == other[j + 3];
  }

  lemma {:induction false} TermsSplit(terms: seq<string>, disjunction: bool)
    requires PlainTerms(terms)
    ensures SplitAll(Join(terms, Word(disjunction)), Word(disjunction)) == terms
    decreases |terms|
  {
    var pat := Word(disjunction);
    hide PlainTerm, SplitOnce;
    if |terms| == 1 {
      LoneTerm(terms[0], disjunction);
      assert terms == [terms[0]];
    } else {
      var later := Join(terms[1..], pat);
      TermsSplit(terms[1..], disjunction);
      OperatorSplits(terms[0], disjunction, later);
      assert terms == [terms[0]] + terms[1..];
    }
  }

  lemma LoneTerm(t: string, disjunction: bool)
    requires PlainTerm(t)
    ensures SplitOnce(t, Word(disjunction)) == None
  {
    var pat := Word(disjunction);
    forall j | 0 <= j <= |t| ensures !(pat <= t[j..]) {
      if pat <= t[j..] {
        assert pat <= (t + " ")[j..] by { assert (t + " ")[j..] == t[j..] + " "; }
        OperatorInPadded(t, pat, j);
        assert false;
      }
    }
  }

  /** A conjunction of plain terms nowhere says `or`. */
  lemma {:induction false} ConjunctionSaysNoOr(terms: seq<string>)
    requires PlainTerms(terms)
    ensures forall i: nat :: !OrAt(" " + Join(terms, " AND ") + " ", i)
    decreases |terms|
  {
    if |terms| > 1 {
      var a, rest := terms[0], Join(terms[1..], " AND ");
      ConjunctionSaysNoOr(terms[1..]);
      forall i: nat ensures !OrAt(" " + Join(terms, " AND ") + " ", i) {
        NoOrAcross(a, rest, i);
      }
    }
  }

  lemma NoOrAcross(a: string, rest: string, i: nat)
    requires forall j: nat :: !OrAt(" " + a + " ", j)
    requires forall j: nat :: !OrAt(" " + rest + " ", j)
    ensures !OrAt(" " + (a + " AND " + rest) + " ", i)
  {
    var left, right := " " + a + " ", " " + rest + " ";
    var text := " " + (a + " AND " + rest) + " ";
    assert text == left + "AND" + right;
    if OrAt(text, i) {
      var n := |left|;
      assert text[n] == 'A' && text[n + 1] == 'N' && text[n + 2] == 'D';
      if i + 4 <= n {
        assert left[i..i + 4] == text[i..i + 4];
        OrMoved(text, i, left, i);
      } else {
        assert i >= n + 3;
        var j := i - (n + 3);
        assert right[j..j + 4] == text[i..i + 4];
        OrMoved(text, i, right, j);
      }
      assert false;
    }
  }

  lemma UnpaddedSaysNoOr(text: string)
    requires forall i: nat :: !OrAt(" " + text + " ", i)
    ensures !SaysOr(text)
  {
    var padded := " " + text + " ";
    forall i: nat ensures !OrAt(text, i) {
      if OrAt(text, i) {
        assert padded[i + 1..i + 5] == text[i..i + 4];
        OrMoved(text, i, padded, i + 1);
        assert false;
      }
    }
  }

  lemma DisjunctionSaysOr(terms: seq<string>)
    requires |terms| > 1
    ensures SaysOr(Join(terms, " OR "))
  {
    var text := Join(terms, " OR ");
    assert text == terms[0] + " OR " + Join(terms[1..], " OR ");
    assert OrAt(text, |terms[0]|);
  }

  // ----- What a search finds -----

  ghost predicate Finds(row: Row, term: string) {
    row.body.Some? && TermFound(row.body.value, term)
  }

  /**
   Plain terms joined by OR find exactly the rows whose body has some term, and joined by AND
   exactly the rows whose body has every term.
   */
  lemma JoinedTermsFind(row: Row, terms: seq<string>, disjunction: bool)
    requires PlainTerms(terms) && |terms| > 1
    ensures SearchHolds(row, Join(terms, Word(disjunction))) <==>
      if disjunction then exists i | 0 <= i < |terms| :: Finds(row, terms[i])
      else forall i | 0 <= i < |terms| :: Finds(row, terms[i])
  {
    var text := Join(terms, Word(disjunction));
    TermsSplit(terms, disjunction);
    if disjunction {
      DisjunctionSaysOr(terms);
    } else {
      ConjunctionSaysNoOr(terms);
      UnpaddedSaysNoOr(text);
    }
    hide SplitAll, Join, SaysOr, TermFound, NoOperatorIn;
    assert SearchParts(text) == terms;
    PartsFind(row, terms);
  }

  lemma PartsFind(row: Row, terms: seq<string>)
    requires PlainTerms(terms)
    ensures forall i | 0 <= i < |terms| :: Trim(terms[i]) != [] && (PartFound(row, terms[i]) <==> Finds(row, terms[i]))
  {
    hide TermFound, NoOperatorIn, Trim;
    forall i | 0 <= i < |terms|
      ensures Trim(terms[i]) != [] && (PartFound(row, terms[i]) <==> Finds(row, terms[i]))
    {
      TrimIdentity(terms[i]);
    }
  }

  /** An `or` that is not in capitals makes a search a disjunction, but cuts it nowhere: the whole text is one term. */
  lemma UncapitalizedOrIsNotCut(row: Row, text: string)
    requires SaysOr(text) && !Contains(text, " OR ") && Trim(text) != []
    ensures SearchHolds(row, text) <==> Finds(row, Trim(text))
  {
    NeverSplits(text, " OR ");
    hide SaysOr, Trim, TermFound, SplitAll;
    var parts := SearchParts(text);
    assert parts == [text] && parts[0] == text;
  }

  lemma NeverSplits(text: string, pat: string)
    requires pat != [] && !Contains(text, pat)
    ensures SplitAll(text, pat) == [text]
  {
  }
}
