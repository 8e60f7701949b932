/**
 The label registry (`src/semantic_labels.rs`), over an arbitrary table of definitions.

 Two lookups resolve a name to its canonical label: the first match in the list of alias
 pairs, used for matchers, and `CanonicalForAlias`, used for grouping. They agree exactly
 on registries where no alias shadows a later canonical name.
 */
module Labels {
  import opened BasicTypes

  datatype Scope = Logs | Spans | Metrics

  /** One definition: per scope, the SQL expression the label is read from. */
  datatype LabelDef = LabelDef(canonical: string, aliases: seq<string>, sources: seq<(Scope, string)>)

  type Registry = seq<LabelDef>

  function SourceFor(sources: seq<(Scope, string)>, scope: Scope): Option<string> {
    if sources == [] then None
    else if sources[0].0 == scope then Some(sources[0].1)
    else SourceFor(sources[1..], scope)
  }

  predicate HasScope(l: LabelDef, scope: Scope) {
    SourceFor(l.sources, scope).Some?
  }

  function DefOf(reg: Registry, scope: Scope, canonical: string): Option<LabelDef> {
    if reg == [] then None
    else if reg[0].canonical == canonical && HasScope(reg[0], scope) then Some(reg[0])
    else DefOf(reg[1..], scope, canonical)
  }

  function LabelExpr(reg: Registry, scope: Scope, canonical: string): Option<string> {
    match DefOf(reg, scope, canonical)
    case Some(def) => SourceFor(def.sources, scope)
    case None => None
  }

  /** The first source of this scope in a definition. */
  ghost predicate IsFirstSource(sources: seq<(Scope, string)>, scope: Scope, j: nat) {
    j < |sources| && sources[j].0 == scope && forall k | 0 <= k < j :: sources[k].0 != scope
  }

  /** The definition has no source of this scope. */
  ghost predicate OutOfScope(l: LabelDef, scope: Scope) {
    forall j | 0 <= j < |l.sources| :: l.sources[j].0 != scope
  }

  lemma {:induction false} SourceIsFirst(sources: seq<(Scope, string)>, scope: Scope) returns (j: nat)
    ensures SourceFor(sources, scope).None? <==> forall k | 0 <= k < |sources| :: sources[k].0 != scope
    ensures SourceFor(sources, scope).Some? ==>
      IsFirstSource(sources, scope, j) && SourceFor(sources, scope).value == sources[j].1
  {
    j := 0;
    if sources != [] && sources[0].0 != scope {
      var k := SourceIsFirst(sources[1..], scope);
      j := k + 1;
      assert forall m | 1 <= m < |sources| :: sources[m] == sources[1..][m - 1];
      assert forall m | 0 <= m < |sources[1..]| :: sources[1..][m] == sources[m + 1];
    }
  }

  lemma ScopeIsASource(l: LabelDef, scope: Scope)
    ensures HasScope(l, scope) <==> !OutOfScope(l, scope)
  {
    var _ := SourceIsFirst(l.sources, scope);
  }

  /**
   The expression of a label in a scope is the first source of that scope in the first
   definition of the name that has one, and there is none exactly if no definition has.
   */
  lemma {:induction false} ExprIsFirstSource(reg: Registry, scope: Scope, name: string) returns (i: nat, j: nat)
    ensures LabelExpr(reg, scope, name).None? <==>
      forall k | 0 <= k < |reg| && reg[k].canonical == name :: OutOfScope(reg[k], scope)
    ensures LabelExpr(reg, scope, name).Some? ==>
      && i < |reg| && reg[i].canonical == name && IsFirstSource(reg[i].sources, scope, j)
      && LabelExpr(reg, scope, name).value == reg[i].sources[j].1
      && (forall k | 0 <= k < i && reg[k].canonical == name :: OutOfScope(reg[k], scope))
  {
    i, j := 0, 0;
    if reg != [] {
      ScopeIsASource(reg[0], scope);
      if reg[0].canonical == name && HasScope(reg[0], scope) {
        j := SourceIsFirst(reg[0].sources, scope);
      } else {
        var k;
        k, j := ExprIsFirstSource(reg[1..], scope, name);
        i := k + 1;
        hide SourceFor, OutOfScope, IsFirstSource, HasScope;
        assert forall m | 1 <= m < |reg| :: reg[m] == reg[1..][m - 1];
        assert forall m | 0 <= m < |reg[1..]| :: reg[1..][m] == reg[m + 1];
      }
    }
  }

  type Pairs = seq<(string, string)>

  function PairsOf(l: LabelDef): Pairs {
    [(l.canonical, l.canonical)] + seq(|l.aliases|, i requires 0 <= i < |l.aliases| => (l.aliases[i], l.canonical))
  }

  function AliasPairsOf(reg: Registry, scope: Scope): Pairs {
    if reg == [] then [] else
    (if HasScope(reg[0], scope) then PairsOf(reg[0]) else []) + AliasPairsOf(reg[1..], scope)
  }

  lemma {:induction false} AliasPairsConcat(a: Registry, b: Registry, scope: Scope)
    ensures AliasPairsOf(a + b, scope) == AliasPairsOf(a, scope) + AliasPairsOf(b, scope)
  {
    if a == [] {
      assert a + b == b;
    } else {
      assert (a + b)[1..] == a[1..] + b;
      AliasPairsConcat(a[1..], b, scope);
    }
  }

  lemma AliasPairsSnoc(reg: Registry, scope: Scope, i: nat)
    requires i < |reg|
    ensures AliasPairsOf(reg[..i + 1], scope) ==
      AliasPairsOf(reg[..i], scope) + if HasScope(reg[i], scope) then PairsOf(reg[i]) else []
  {
    AliasPairsConcat(reg[..i], [reg[i]], scope);
    hide HasScope, PairsOf;
    assert reg[..i + 1] == reg[..i] + [reg[i]] && [reg[i]][1..] == [];
    assert AliasPairsOf([reg[i]], scope) == if HasScope(reg[i], scope) then PairsOf(reg[i]) else [];
  }

  /** One label's own pairs, after those already collected. */
  method PushPairs(before: Pairs, def: LabelDef) returns (out: Pairs)
    ensures out == before + PairsOf(def)
  {
    out := before + [(def.canonical, def.canonical)];
    for j := 0 to |def.aliases|
      invariant out == before + PairsOf(def)[..j + 1]
    {
      out := out + [(def.aliases[j], def.canonical)];
    }
  }

  method AliasPairs(reg: Registry, scope: Scope) returns (out: Pairs)
    ensures out == AliasPairsOf(reg, scope)
  {
    hide HasScope, PairsOf;
    out := [];
    for i := 0 to |reg|
      invariant out == AliasPairsOf(reg[..i], scope)
    {
      AliasPairsSnoc(reg, scope, i);
      if HasScope(reg[i], scope) {
        out := PushPairs(out, reg[i]);
      }
    }
    assert reg[..|reg|] == reg;
  }

  /** The canonical name of the first pair for a raw name. */
  function FirstMatch(pairs: Pairs, raw: string): (r: Option<string>)
    ensures r.Some? ==> (raw, r.value) in pairs
    ensures r.None? ==> forall i | 0 <= i < |pairs| :: pairs[i].0 != raw
  {
    if pairs == [] then None
    else if pairs[0].0 == raw then Some(pairs[0].1)
    else FirstMatch(pairs[1..], raw)
  }

  function FirstAliased(reg: Registry, scope: Scope, raw: string): Option<string> {
    if reg == [] then None
    else if HasScope(reg[0], scope) && raw in reg[0].aliases then Some(reg[0].canonical)
    else FirstAliased(reg[1..], scope, raw)
  }

  function CanonicalForAlias(reg: Registry, scope: Scope, raw: string): Option<string> {
    if DefOf(reg, scope, raw).Some? then Some(raw) else FirstAliased(reg, scope, raw)
  }

  // ----- When the two lookups agree -----

  predicate Matches(l: LabelDef, scope: Scope, raw: string) {
    HasScope(l, scope) && (l.canonical == raw || raw in l.aliases)
  }

  /** The first definition in scope that answers to a name. */
  function FirstDef(reg: Registry, scope: Scope, raw: string): (i: nat)
    ensures i <= |reg|
    ensures i < |reg| ==> Matches(reg[i], scope, raw)
    ensures forall j | 0 <= j < i :: !Matches(reg[j], scope, raw)
  {
    if reg == [] then 0
    else if Matches(reg[0], scope, raw) then 0
    else 1 + FirstDef(reg[1..], scope, raw)
  }

  lemma {:induction false} FirstMatchConcat(a: Pairs, b: Pairs, raw: string)
    ensures FirstMatch(a + b, raw) == if FirstMatch(a, raw).Some? then FirstMatch(a, raw) else FirstMatch(b, raw)
  {
    if a == [] {
      assert a + b == b;
    } else {
      assert (a + b)[1..] == a[1..] + b;
      FirstMatchConcat(a[1..], b, raw);
    }
  }

  lemma OwnPairs(l: LabelDef, raw: string)
    ensures FirstMatch(PairsOf(l), raw) == if l.canonical == raw || raw in l.aliases then Some(l.canonical) else None
  {
    var pairs := PairsOf(l);
    if raw in l.aliases {
      var i :| 0 <= i < |l.aliases| && l.aliases[i] == raw;
      assert pairs[i + 1].0 == raw;
    }
    assert pairs[0].0 == l.canonical;
  }

  /** The alias pairs resolve a name to its first definition's canonical name. */
  lemma {:induction false} FirstMatchIsFirstDef(reg: Registry, scope: Scope, raw: string)
    ensures var i := FirstDef(reg, scope, raw);
      FirstMatch(AliasPairsOf(reg, scope), raw) == if i < |reg| then Some(reg[i].canonical) else None
  {
    if reg != [] {
      FirstMatchIsFirstDef(reg[1..], scope, raw);
      OwnPairs(reg[0], raw);
      hide PairsOf;
      FirstMatchConcat(if HasScope(reg[0], scope) then PairsOf(reg[0]) else [], AliasPairsOf(reg[1..], scope), raw);
    }
  }

  lemma {:induction false} DefOfFound(reg: Registry, scope: Scope, name: string)
    ensures DefOf(reg, scope, name).Some? <==>
      exists j :: 0 <= j < |reg| && reg[j].canonical == name && HasScope(reg[j], scope)
    ensures DefOf(reg, scope, name).Some? ==> HasScope(DefOf(reg, scope, name).value, scope)
  {
    if reg != [] {
      DefOfFound(reg[1..], scope, name);
      if DefOf(reg[1..], scope, name).Some? {
        var j :| 0 <= j < |reg[1..]| && reg[1..][j].canonical == name && HasScope(reg[1..][j], scope);
        assert reg[j + 1].canonical == name && HasScope(reg[j + 1], scope);
      }
    }
  }

  lemma {:induction false} FirstAliasedIsFirstDef(reg: Registry, scope: Scope, raw: string)
    requires DefOf(reg, scope, raw).None?
    ensures var i := FirstDef(reg, scope, raw);
      FirstAliased(reg, scope, raw) == if i < |reg| then Some(reg[i].canonical) else None
  {
    if reg != [] {
      FirstAliasedIsFirstDef(reg[1..], scope, raw);
    }
  }

  /** On one name the lookups differ exactly if it is a canonical name first answered to by an alias. */
  lemma AgreeOn(reg: Registry, scope: Scope, raw: string)
    ensures DefOf(reg, scope, raw).Some? ==> FirstDef(reg, scope, raw) < |reg|
    ensures FirstMatch(AliasPairsOf(reg, scope), raw) == CanonicalForAlias(reg, scope, raw) <==>
      (DefOf(reg, scope, raw).Some? ==> reg[FirstDef(reg, scope, raw)].canonical == raw)
  {
    FirstMatchIsFirstDef(reg, scope, raw);
    DefOfFound(reg, scope, raw);
    if DefOf(reg, scope, raw).None? {
      FirstAliasedIsFirstDef(reg, scope, raw);
    }
  }

  /** No alias stands before the canonical name it equals. */
  ghost predicate NothingShadowed(reg: Registry, scope: Scope) {
    forall i, j | 0 <= i < j < |reg| && HasScope(reg[i], scope) && HasScope(reg[j], scope)
      && reg[j].canonical in reg[i].aliases :: CanonicalUpTo(reg, scope, reg[j].canonical, i)
  }

  ghost predicate CanonicalUpTo(reg: Registry, scope: Scope, name: string, i: nat)
    requires i < |reg|
  {
    exists k :: 0 <= k <= i && HasScope(reg[k], scope) && reg[k].canonical == name
  }

  ghost predicate LookupsAgree(reg: Registry, scope: Scope) {
    forall raw :: FirstMatch(AliasPairsOf(reg, scope), raw) == CanonicalForAlias(reg, scope, raw)
  }

  lemma AgreeWithoutShadowing(reg: Registry, scope: Scope, raw: string)
    requires NothingShadowed(reg, scope)
    ensures FirstMatch(AliasPairsOf(reg, scope), raw) == CanonicalForAlias(reg, scope, raw)
  {
    AgreeOn(reg, scope, raw);
    DefOfFound(reg, scope, raw);
    hide FirstMatch, CanonicalForAlias, HasScope;
    if DefOf(reg, scope, raw).Some? {
      var i := FirstDef(reg, scope, raw);
      var j :| 0 <= j < |reg| && reg[j].canonical == raw && HasScope(reg[j], scope);
      assert Matches(reg[j], scope, raw);
      forall k | 0 <= k < i ensures !(HasScope(reg[k], scope) && reg[k].canonical == raw) {
        assert !Matches(reg[k], scope, raw);
      }
    }
  }

  lemma ShadowingDisagrees(reg: Registry, scope: Scope, i: nat, j: nat)
    requires LookupsAgree(reg, scope) && i < j < |reg| && HasScope(reg[i], scope) && HasScope(reg[j], scope)
    requires reg[j].canonical in reg[i].aliases
    ensures CanonicalUpTo(reg, scope, reg[j].canonical, i)
  {
    var raw := reg[j].canonical;
    assert FirstMatch(AliasPairsOf(reg, scope), raw) == CanonicalForAlias(reg, scope, raw);
    AgreeOn(reg, scope, raw);
    DefOfFound(reg, scope, raw);
    hide FirstMatch, CanonicalForAlias, HasScope;
    var k := FirstDef(reg, scope, raw);
    assert Matches(reg[i], scope, raw);
    assert k <= i && reg[k].canonical == raw;
  }

  /** The two lookups give the same answer to every string exactly on registries without shadowing. */
  lemma LookupsAgreeExactlyWhen(reg: Registry, scope: Scope)
    ensures LookupsAgree(reg, scope) <==> NothingShadowed(reg, scope)
  {
    hide FirstMatch, CanonicalForAlias, HasScope;
    if NothingShadowed(reg, scope) {
      forall raw ensures FirstMatch(AliasPairsOf(reg, scope), raw) == CanonicalForAlias(reg, scope, raw) {
        AgreeWithoutShadowing(reg, scope, raw);
      }
    }
    if LookupsAgree(reg, scope) {
      forall i, j | 0 <= i < j < |reg| && HasScope(reg[i], scope) && HasScope(reg[j], scope)
        && reg[j].canonical in reg[i].aliases
        ensures CanonicalUpTo(reg, scope, reg[j].canonical, i)
      {
        ShadowingDisagrees(reg, scope, i, j);
      }
    }
  }

  /** What the registry's own test demands: within a scope, a name has one canonical label. */
  ghost predicate Unambiguous(pairs: Pairs) {
    forall i, j | 0 <= i < |pairs| && 0 <= j < |pairs| && pairs[i].0 == pairs[j].0 :: pairs[i].1 == pairs[j].1
  }

  lemma {:induction false} PairOfDef(reg: Registry, scope: Scope, j: nat) returns (p: nat)
    requires j < |reg| && HasScope(reg[j], scope)
    ensures p < |AliasPairsOf(reg, scope)| && AliasPairsOf(reg, scope)[p] == (reg[j].canonical, reg[j].canonical)
  {
    if j == 0 {
      p := 0;
    } else {
      var q := PairOfDef(reg[1..], scope, j - 1);
      p := q + if HasScope(reg[0], scope) then |PairsOf(reg[0])| else 0;
    }
  }

  /** On an unambiguous registry the lookups agree, and a canonical name resolves to itself. */
  lemma UnambiguousLookupsAgree(reg: Registry, scope: Scope)
    requires Unambiguous(AliasPairsOf(reg, scope))
    ensures LookupsAgree(reg, scope)
    ensures forall raw | DefOf(reg, scope, raw).Some? :: FirstMatch(AliasPairsOf(reg, scope), raw) == Some(raw)
  {
    var pairs := AliasPairsOf(reg, scope);
    forall raw
      ensures FirstMatch(pairs, raw) == CanonicalForAlias(reg, scope, raw)
      ensures DefOf(reg, scope, raw).Some? ==> FirstMatch(pairs, raw) == Some(raw)
    {
      AgreeOn(reg, scope, raw);
      if DefOf(reg, scope, raw).Some? {
        DefOfFound(reg, scope, raw);
        var j :| 0 <= j < |reg| && reg[j].canonical == raw && HasScope(reg[j], scope);
        var p := PairOfDef(reg, scope, j);
        FirstMatchIsFirstDef(reg, scope, raw);
        var m := FirstMatch(pairs, raw);
        var q :| 0 <= q < |pairs| && pairs[q] == (raw, m.value);
        assert pairs[q].1 == pairs[p].1;
      }
    }
  }

  // ----- Resolved names always have an expression -----

  lemma {:induction false} AliasedHasDef(reg: Registry, scope: Scope, raw: string)
    ensures var c := FirstAliased(reg, scope, raw); c.Some? ==> DefOf(reg, scope, c.value).Some?
  {
    if reg != [] {
      AliasedHasDef(reg[1..], scope, raw);
    }
  }

  /** Whatever name either lookup resolves, the resulting label can be selected in SQL. */
  lemma ResolvedHasExpr(reg: Registry, scope: Scope, raw: string)
    ensures var c := CanonicalForAlias(reg, scope, raw); c.Some? ==> LabelExpr(reg, scope, c.value).Some?
    ensures var c := FirstMatch(AliasPairsOf(reg, scope), raw); c.Some? ==> LabelExpr(reg, scope, c.value).Some?
  {
    AliasedHasDef(reg, scope, raw);
    FirstMatchIsFirstDef(reg, scope, raw);
    var i := FirstDef(reg, scope, raw);
    forall name ensures DefOf(reg, scope, name).Some? ==> LabelExpr(reg, scope, name).Some? {
      DefOfFound(reg, scope, name);
    }
    if i < |reg| {
      DefOfFound(reg, scope, reg[i].canonical);
    }
  }

  /** The canonical labels of a scope, in table order. */
  function ScopeLabels(reg: Registry, scope: Scope): seq<string> {
    if reg == [] then [] else
    (if HasScope(reg[0], scope) then [reg[0].canonical] else []) + ScopeLabels(reg[1..], scope)
  }

  lemma {:induction false} ScopeLabelsAreDefs(reg: Registry, scope: Scope, name: string)
    ensures name in ScopeLabels(reg, scope) <==> DefOf(reg, scope, name).Some?
  {
    if reg != [] {
      ScopeLabelsAreDefs(reg[1..], scope, name);
    }
  }

  // ----- The columns of a metric query -----

  datatype Column = Bucket | GroupColumn(name: string, expr: string) | Value

  function GroupColumns(reg: Registry, groupBy: seq<string>): seq<Column> {
    if groupBy == [] then [] else
    (match LabelExpr(reg, Metrics, groupBy[0])
     case Some(expr) => [GroupColumn(groupBy[0], expr)]
     case None => []) + GroupColumns(reg, groupBy[1..])
  }

  /** The select list: the time bucket, one column per group label that resolves, the value. */
  function SelectList(reg: Registry, groupBy: seq<string>): seq<Column> {
    [Bucket] + GroupColumns(reg, groupBy) + [Value]
  }

  /** The reader takes column idx + 1 for the idx-th group label and the one after them as the value. */
  ghost predicate ReaderAligned(reg: Registry, groupBy: seq<string>) {
    var columns := SelectList(reg, groupBy);
    && |groupBy| + 1 < |columns| && columns[|groupBy| + 1] == Value
    && (forall idx | 0 <= idx < |groupBy| ::
          columns[idx + 1].GroupColumn? && columns[idx + 1].name == groupBy[idx]
          && LabelExpr(reg, Metrics, groupBy[idx]) == Some(columns[idx + 1].expr))
  }

  ghost predicate AllResolve(reg: Registry, groupBy: seq<string>) {
    forall i | 0 <= i < |groupBy| :: LabelExpr(reg, Metrics, groupBy[i]).Some?
  }

  lemma {:induction false} GroupColumnsCount(reg: Registry, groupBy: seq<string>)
    ensures |GroupColumns(reg, groupBy)| <= |groupBy|
    ensures |GroupColumns(reg, groupBy)| == |groupBy| <==> AllResolve(reg, groupBy)
    ensures AllResolve(reg, groupBy) ==> forall i | 0 <= i < |groupBy| ::
      GroupColumns(reg, groupBy)[i] == GroupColumn(groupBy[i], LabelExpr(reg, Metrics, groupBy[i]).value)
  {
    if groupBy != [] {
      hide LabelExpr;
      GroupColumnsCount(reg, groupBy[1..]);
      assert AllResolve(reg, groupBy) <==>
        LabelExpr(reg, Metrics, groupBy[0]).Some? && AllResolve(reg, groupBy[1..]) by {
        assert forall i | 1 <= i < |groupBy| :: groupBy[i] == groupBy[1..][i - 1];
        assert forall i | 0 <= i < |groupBy[1..]| :: groupBy[1..][i] == groupBy[i + 1];
      }
    }
  }

  /** The reader's column positions are right exactly when every group label has an expression. */
  lemma ReaderAlignedExactlyWhen(reg: Registry, groupBy: seq<string>)
    ensures ReaderAligned(reg, groupBy) <==> AllResolve(reg, groupBy)
  {
    GroupColumnsCount(reg, groupBy);
    hide LabelExpr;
  }
}
