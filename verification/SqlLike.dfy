/**
 Text search puts the term into a LIKE pattern as it is (`src/query/mod.rs`): it finds the
 texts that contain the term exactly if the term has no wildcard of its own.
 */
module SqlLike {
  import opened Text
  import opened SqlCondition
  import opened SqlMeaning

  predicate IsWildcard(c: char) {
    c == '%' || c == '_'
  }

  predicate NoWildcards(t: string) {
    forall i | 0 <= i < |t| :: !IsWildcard(t[i])
  }

  lemma {:induction false} AnythingMatches(s: string)
    ensures LikeMatches(s, "%")
    decreases |s|
  {
    assert "%"[1..] == [];
    if s != [] {
      AnythingMatches(s[1..]);
    }
  }

  /** A plain text followed by `%` matches what starts with it. */
  lemma {:induction false} PlainMatchesPrefix(s: string, t: string)
    requires NoWildcards(t)
    ensures LikeMatches(s, t + "%") <==> t <= s
    decreases |t|
  {
    if t == [] {
      assert t + "%" == "%";
      AnythingMatches(s);
    } else {
      assert (t + "%")[0] == t[0] && (t + "%")[1..] == t[1..] + "%";
      assert !IsWildcard(t[0]);
      if s != [] {
        PlainMatchesPrefix(s[1..], t[1..]);
        assert t <= s <==> t[0] == s[0] && t[1..] <= s[1..];
      }
    }
  }

  /** A leading `%` lets the rest match anywhere. */
  lemma {:induction false} PlainMatchesAnywhere(s: string, t: string)
    requires NoWildcards(t) && t != []
    ensures LikeMatches(s, "%" + t + "%") <==> Contains(s, t)
    decreases |s|
  {
    assert "%" + t + "%" == "%" + (t + "%");
    assert ("%" + (t + "%"))[1..] == t + "%";
    PlainMatchesPrefix(s, t);
    if s != [] {
      PlainMatchesAnywhere(s[1..], t);
    }
  }

  /** A text that the pattern `t` matches; it differs from `t` at the wildcards. */
  function Sample(t: string): string {
    seq(|t|, i requires 0 <= i < |t| => if IsWildcard(t[i]) then 'x' else t[i])
  }

  lemma {:induction false} SampleMatches(t: string)
    ensures LikeMatches(Sample(t), t + "%")
    decreases |t|
  {
    if t == [] {
      assert t + "%" == "%";
      AnythingMatches([]);
    } else {
      SampleMatches(t[1..]);
      assert Sample(t)[1..] == Sample(t[1..]);
      assert (t + "%")[0] == t[0] && (t + "%")[1..] == t[1..] + "%";
      if t[0] == '%' {
        SkipOne(Sample(t), t + "%");
      }
    }
  }

  lemma SkipOne(s: string, pattern: string)
    requires s != [] && pattern != [] && pattern[0] == '%' && LikeMatches(s[1..], pattern[1..])
    ensures LikeMatches(s, pattern)
  {
    assert LikeMatches(s[1..], pattern);
  }

  lemma SampleIsFound(t: string)
    ensures LikeMatches(Sample(t), "%" + t + "%")
  {
    SampleMatches(t);
    assert "%" + t + "%" == "%" + (t + "%");
    assert ("%" + (t + "%"))[1..] == t + "%";
  }

  lemma SampleLacks(t: string)
    requires !NoWildcards(t)
    ensures !Contains(Sample(t), t)
  {
    var i :| 0 <= i < |t| && IsWildcard(t[i]);
    var s := Sample(t);
    assert s[i] != t[i];
    forall j | 0 <= j <= |s| ensures !(t <= s[j..]) {
      assert s[0..] == s;
    }
  }

  // ----- With case folded -----

  lemma LowerPattern(t: string)
    ensures ToLower("%" + t + "%") == "%" + ToLower(t) + "%"
    ensures NoWildcards(ToLower(t)) <==> NoWildcards(t)
  {
    var p, q := "%" + t + "%", "%" + ToLower(t) + "%";
    forall i | 0 <= i < |p| ensures ToLower(p)[i] == q[i] {
      LowerAt(p, i);
      if 0 < i <= |t| {
        LowerAt(t, i - 1);
      }
    }
    assert ToLower(p) == q;
    forall i | 0 <= i < |t| ensures IsWildcard(ToLower(t)[i]) <==> IsWildcard(t[i]) {
      LowerAt(t, i);
    }
  }

  lemma SampleIsLower(t: string)
    ensures ToLower(Sample(ToLower(t))) == Sample(ToLower(t))
  {
    var s := Sample(ToLower(t));
    forall i | 0 <= i < |s| ensures ToLower(s)[i] == s[i] {
      LowerAt(s, i);
      LowerAt(t, i);
    }
  }

  ghost predicate FindsContaining(term: string)
    requires term != []
  {
    forall body :: TermFound(body, term) <==> Contains(ToLower(body), ToLower(term))
  }

  /** Searching for a term finds exactly the texts that contain it if and only if it has no `%` or `_`. */
  lemma SearchIsContainmentExactlyWhen(term: string)
    requires term != []
    ensures FindsContaining(term) <==> NoWildcards(term)
  {
    hide LikeMatches, Find, ToLower, NoWildcards, Sample;
    var t := ToLower(term);
    LowerPattern(term);
    if NoWildcards(term) {
      forall body ensures TermFound(body, term) <==> Contains(ToLower(body), t) {
        PlainMatchesAnywhere(ToLower(body), t);
      }
    } else {
      SampleIsFound(t);
      SampleLacks(t);
      SampleIsLower(term);
      assert TermFound(Sample(t), term) && !Contains(ToLower(Sample(t)), t);
    }
  }
}
