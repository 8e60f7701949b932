/**
 Matcher normalization (`src/query/plan.rs`): each label is replaced by its canonical name,
 and two equality matchers of one label must ask for the same value.
 */
module Normalize {
  import opened BasicTypes
  import opened Labels
  import opened Selector

  const UNSUPPORTED := "unsupported label"
  const CONFLICTING := "conflicting values"

  predicate Clashes(existing: seq<FieldMatcher>, canonical: string, m: FieldMatcher) {
    m.op == Eq && exists i | 0 <= i < |existing| ::
      existing[i].field == canonical && existing[i].op == Eq && existing[i].value != m.value
  }

  function NormalizeFrom(pairs: Pairs, existing: seq<FieldMatcher>,
                         ms: seq<FieldMatcher>): ParseResult<seq<FieldMatcher>>
    decreases |ms|
  {
    if ms == [] then Ok(existing)
    else
      match FirstMatch(pairs, ms[0].field)
      case None => Err(UNSUPPORTED)
      case Some(canonical) =>
        if Clashes(existing, canonical, ms[0]) then Err(CONFLICTING)
        else NormalizeFrom(pairs, existing + [ms[0].(field := canonical)], ms[1..])
  }

  function Normalized(pairs: Pairs, ms: seq<FieldMatcher>): ParseResult<seq<FieldMatcher>> {
    NormalizeFrom(pairs, [], ms)
  }

  method NormalizeMatchers(matchers: seq<FieldMatcher>, supported: Pairs) returns (r: ParseResult<seq<FieldMatcher>>)
    ensures r == Normalized(supported, matchers)
  {
    var normalized: seq<FieldMatcher> := [];
    assert matchers[0..] == matchers;
    for i := 0 to |matchers|
      invariant Normalized(supported, matchers) == NormalizeFrom(supported, normalized, matchers[i..])
    {
      var matcher := matchers[i];
      assert matchers[i..][0] == matcher && matchers[i..][1..] == matchers[i + 1..];
      var canonical := FirstMatch(supported, matcher.field);
      if canonical.None? {
        return Err(UNSUPPORTED);
      }
      if Clashes(normalized, canonical.value, matcher) {
        return Err(CONFLICTING);
      }
      normalized := normalized + [matcher.(field := canonical.value)];
    }
    return Ok(normalized);
  }

  // ----- When it succeeds -----

  ghost predicate AllSupported(pairs: Pairs, ms: seq<FieldMatcher>) {
    forall m | m in ms :: FirstMatch(pairs, m.field).Some?
  }

  /** Equality matchers of labels with one canonical name ask for one value. */
  ghost predicate Consistent(pairs: Pairs, ms: seq<FieldMatcher>) {
    forall a, b | a in ms && b in ms && a.op == Eq && b.op == Eq
      && FirstMatch(pairs, a.field) == FirstMatch(pairs, b.field) :: a.value == b.value
  }

  ghost predicate IsRenamed(pairs: Pairs, ms: seq<FieldMatcher>, out: seq<FieldMatcher>) {
    && |out| == |ms|
    && forall i | 0 <= i < |ms| ::
         && FirstMatch(pairs, ms[i].field) == Some(out[i].field)
         && out[i].value == ms[i].value && out[i].op == ms[i].op
  }

  lemma ClashesExactlyWhen(pairs: Pairs, before: seq<FieldMatcher>, existing: seq<FieldMatcher>, m: FieldMatcher)
    requires IsRenamed(pairs, before, existing) && Consistent(pairs, before) && FirstMatch(pairs, m.field).Some?
    ensures Clashes(existing, FirstMatch(pairs, m.field).value, m) <==> !Consistent(pairs, before + [m])
  {
    hide FirstMatch;
    var canonical := FirstMatch(pairs, m.field).value;
    var all := before + [m];
    assert m in all && forall b | b in before :: b in all;
    if Clashes(existing, canonical, m) {
      var i :| 0 <= i < |existing|
        && existing[i].field == canonical && existing[i].op == Eq && existing[i].value != m.value;
      assert before[i] in all && FirstMatch(pairs, before[i].field) == FirstMatch(pairs, m.field);
    } else {
      forall a, b | a in all && b in all && a.op == Eq && b.op == Eq
        && FirstMatch(pairs, a.field) == FirstMatch(pairs, b.field)
        ensures a.value == b.value
      {
        NoClash(pairs, before, existing, m, a);
        NoClash(pairs, before, existing, m, b);
      }
    }
  }

  lemma NoClash(pairs: Pairs, before: seq<FieldMatcher>, existing: seq<FieldMatcher>, m: FieldMatcher, b: FieldMatcher)
    requires IsRenamed(pairs, before, existing) && FirstMatch(pairs, m.field).Some?
    requires !Clashes(existing, FirstMatch(pairs, m.field).value, m)
    ensures b in before && m.op == Eq && b.op == Eq && FirstMatch(pairs, b.field) == FirstMatch(pairs, m.field)
      ==> b.value == m.value
  {
    hide FirstMatch;
    if b in before {
      var i :| 0 <= i < |before| && before[i] == b;
      assert FirstMatch(pairs, b.field) == Some(existing[i].field);
    }
  }

  lemma {:induction false} NormalizesFrom(pairs: Pairs, before: seq<FieldMatcher>, existing: seq<FieldMatcher>,
                                          ms: seq<FieldMatcher>)
    requires IsRenamed(pairs, before, existing) && Consistent(pairs, before)
    ensures NormalizeFrom(pairs, existing, ms).Ok? <==> AllSupported(pairs, ms) && Consistent(pairs, before + ms)
    ensures NormalizeFrom(pairs, existing, ms).Ok? ==>
      IsRenamed(pairs, before + ms, NormalizeFrom(pairs, existing, ms).value)
    ensures NormalizeFrom(pairs, existing, ms) == Err(UNSUPPORTED) ==> !AllSupported(pairs, ms)
    ensures NormalizeFrom(pairs, existing, ms) == Err(CONFLICTING) ==> !Consistent(pairs, before + ms)
    decreases |ms|
  {
    hide FirstMatch, Clashes, IsRenamed, Consistent;
    if ms == [] {
      assert before + ms == before;
    } else {
      var m := ms[0];
      assert m in ms;
      var canonical := FirstMatch(pairs, m.field);
      if canonical.Some? {
        ClashesExactlyWhen(pairs, before, existing, m);
        assert before + ms == before + [m] + ms[1..];
        if Clashes(existing, canonical.value, m) {
          ConsistentPart(pairs, before + [m], ms[1..]);
        } else {
          RenamedStep(pairs, before, existing, m);
          NormalizesFrom(pairs, before + [m], existing + [m.(field := canonical.value)], ms[1..]);
          SupportedCons(pairs, ms);
        }
      }
    }
  }

  lemma RenamedStep(pairs: Pairs, before: seq<FieldMatcher>, existing: seq<FieldMatcher>, m: FieldMatcher)
    requires IsRenamed(pairs, before, existing) && FirstMatch(pairs, m.field).Some?
    ensures IsRenamed(pairs, before + [m], existing + [m.(field := FirstMatch(pairs, m.field).value)])
  {
    hide FirstMatch;
  }

  lemma ConsistentPart(pairs: Pairs, part: seq<FieldMatcher>, rest: seq<FieldMatcher>)
    ensures Consistent(pairs, part + rest) ==> Consistent(pairs, part)
  {
    assert forall m | m in part :: m in part + rest;
  }

  lemma SupportedCons(pairs: Pairs, ms: seq<FieldMatcher>)
    requires ms != []
    ensures AllSupported(pairs, ms) <==> FirstMatch(pairs, ms[0].field).Some? && AllSupported(pairs, ms[1..])
  {
    assert ms[0] in ms;
    assert forall m | m in ms[1..] :: m in ms;
    assert forall m | m in ms :: m == ms[0] || m in ms[1..];
  }

  /**
   Normalization succeeds exactly when every label is supported and no two equality matchers
   of one canonical label disagree. It then keeps length, order, operators and values, and
   replaces every label by its canonical name.
   */
  lemma NormalizesExactlyWhen(pairs: Pairs, ms: seq<FieldMatcher>)
    ensures Normalized(pairs, ms).Ok? <==> AllSupported(pairs, ms) && Consistent(pairs, ms)
    ensures Normalized(pairs, ms).Ok? ==> IsRenamed(pairs, ms, Normalized(pairs, ms).value)
    ensures Normalized(pairs, ms) == Err(UNSUPPORTED) ==> !AllSupported(pairs, ms)
    ensures Normalized(pairs, ms) == Err(CONFLICTING) ==> !Consistent(pairs, ms)
  {
    NormalizesFrom(pairs, [], [], ms);
    assert [] + ms == ms;
  }

  /** In the result, equality matchers of one field ask for one value. */
  lemma NormalizedAgree(pairs: Pairs, ms: seq<FieldMatcher>, i: nat, j: nat)
    requires Normalized(pairs, ms).Ok? && i < |Normalized(pairs, ms).value| && j < |Normalized(pairs, ms).value|
    ensures var out := Normalized(pairs, ms).value;
      out[i].op == Eq && out[j].op == Eq && out[i].field == out[j].field ==> out[i].value == out[j].value
  {
    NormalizesExactlyWhen(pairs, ms);
    hide Normalized, FirstMatch;
    assert ms[i] in ms && ms[j] in ms;
  }

  /** Whether matchers are accepted does not depend on their order. */
  lemma AcceptedInAnyOrder(pairs: Pairs, ms: seq<FieldMatcher>, other: seq<FieldMatcher>)
    requires multiset(ms) == multiset(other)
    ensures Normalized(pairs, ms).Ok? <==> Normalized(pairs, other).Ok?
  {
    NormalizesExactlyWhen(pairs, ms);
    NormalizesExactlyWhen(pairs, other);
    hide Normalized, FirstMatch;
    forall m ensures m in ms <==> m in other {
      assert m in ms <==> m in multiset(ms);
      assert m in other <==> m in multiset(other);
    }
  }

  /** Every canonical name resolves to itself. */
  ghost predicate CanonicalIsFixed(pairs: Pairs) {
    forall i | 0 <= i < |pairs| :: FirstMatch(pairs, pairs[i].1) == Some(pairs[i].1)
  }

  /** Normalizing a second time changes nothing. */
  lemma NormalizingIsIdempotent(pairs: Pairs, ms: seq<FieldMatcher>)
    requires CanonicalIsFixed(pairs) && Normalized(pairs, ms).Ok?
    ensures Normalized(pairs, Normalized(pairs, ms).value) == Ok(Normalized(pairs, ms).value)
  {
    var out := Normalized(pairs, ms).value;
    NormalizesExactlyWhen(pairs, ms);
    NormalizesExactlyWhen(pairs, out);
    forall i | 0 <= i < |out| ensures FirstMatch(pairs, out[i].field) == Some(out[i].field) {
      assert (ms[i].field, out[i].field) in pairs;
    }
    hide Normalized, FirstMatch;
    forall i, j | 0 <= i < |out| && 0 <= j < |out| && out[i].op == Eq && out[j].op == Eq && out[i].field == out[j].field
      ensures out[i].value == out[j].value
    {
      assert ms[i] in ms && ms[j] in ms;
    }
    assert IsRenamed(pairs, out, Normalized(pairs, out).value);
    assert Normalized(pairs, out).value == out;
  }

  /** The alias pairs of an unambiguous registry fix canonical names. */
  lemma UnambiguousIsFixed(reg: Registry, scope: Scope)
    requires Unambiguous(AliasPairsOf(reg, scope))
    ensures CanonicalIsFixed(AliasPairsOf(reg, scope))
  {
    UnambiguousLookupsAgree(reg, scope);
    var pairs := AliasPairsOf(reg, scope);
    forall i | 0 <= i < |pairs| ensures FirstMatch(pairs, pairs[i].1) == Some(pairs[i].1) {
      PairsAreDefs(reg, scope, i);
    }
  }

  lemma {:induction false} PairsAreDefs(reg: Registry, scope: Scope, i: nat)
    requires i < |AliasPairsOf(reg, scope)|
    ensures DefOf(reg, scope, AliasPairsOf(reg, scope)[i].1).Some?
  {
    var own := if HasScope(reg[0], scope) then PairsOf(reg[0]) else [];
    if i >= |own| {
      PairsAreDefs(reg[1..], scope, i - |own|);
    }
  }
}
