/**
 A log query from its text to its rows: parsing, label normalization and lowering together.
 */
module LogPath {
  import opened BasicTypes
  import opened Text
  import opened Labels
  import opened Selector
  import opened Normalize
  import opened LogQuery
  import opened SqlCondition
  import opened SqlLowering
  import opened SqlMeaning
  import opened SqlWhere

  /** Whatever text is parsed, every matcher's label has an expression: lowering never lacks one. */
  lemma ParsedLabelsLower(reg: Registry, raw: string)
    ensures ParseLokiQuery(reg, raw).Ok? ==> AllLabelled(reg, ParseLokiQuery(reg, raw).value.matchers)
  {
    hide ParseSelector, ParseLogPipeline, AliasPairsOf, LabelExpr;
    var parsed := ParseSelector(ParseLogPipeline(raw).0);
    if parsed.Ok? {
      var ms := parsed.value.1;
      NormalizedHaveExpr(reg, ms);
    }
  }

  lemma NormalizedHaveExpr(reg: Registry, ms: seq<FieldMatcher>)
    ensures var r := Normalized(AliasPairsOf(reg, Logs), ms);
      r.Ok? ==> IsRenamed(AliasPairsOf(reg, Logs), ms, r.value) && AllLabelled(reg, r.value)
  {
    hide AliasPairsOf, LabelExpr, FirstMatch, NormalizeFrom, CanonicalForAlias;
    var pairs := AliasPairsOf(reg, Logs);
    NormalizesExactlyWhen(pairs, ms);
    var r := Normalized(pairs, ms);
    if r.Ok? {
      forall i | 0 <= i < |r.value| ensures LabelExpr(reg, Logs, r.value[i].field).Some? {
        ResolvedHasExpr(reg, Logs, ms[i].field);
        assert FirstMatch(pairs, ms[i].field) == Some(r.value[i].field);
      }
    }
  }

  /** A matcher asks for a value of the label its name stands for. */
  ghost predicate Asks(db: Database, reg: Registry, row: Row, m: FieldMatcher)
    requires ClosedRegistry(reg, Logs)
  {
    var canonical := FirstMatch(AliasPairsOf(reg, Logs), m.field);
    && canonical.Some?
    && LabelExpr(reg, Logs, canonical.value).Some?
    && MatcherHolds(db, row, LabelExpr(reg, Logs, canonical.value).value, m)
  }

  ghost predicate AllAsk(db: Database, reg: Registry, row: Row, ms: seq<FieldMatcher>)
    requires ClosedRegistry(reg, Logs)
  {
    forall i | 0 <= i < |ms| :: Asks(db, reg, row, ms[i])
  }

  lemma RenamedHold(db: Database, reg: Registry, row: Row, ms: seq<FieldMatcher>, out: seq<FieldMatcher>)
    requires ClosedRegistry(reg, Logs) && IsRenamed(AliasPairsOf(reg, Logs), ms, out) && AllLabelled(reg, out)
    ensures MatchersHold(db, reg, row, out) <==> AllAsk(db, reg, row, ms)
  {
    hide AliasPairsOf, LabelExpr, FirstMatch, Closed, LabelText;
    var pairs := AliasPairsOf(reg, Logs);
    forall i | 0 <= i < |ms|
      ensures Asks(db, reg, row, ms[i]) <==> MatcherHolds(db, row, LabelExpr(reg, Logs, out[i].field).value, out[i])
    {
      assert FirstMatch(pairs, ms[i].field) == Some(out[i].field);
      assert LabelExpr(reg, Logs, out[i].field).Some?;
    }
    hide Asks, MatcherHolds;
  }

  /**
   The text of a log query is refused if a label value has a pipe operator. Otherwise it keeps
   exactly the rows that are in its bounds, have the asked values under whatever alias the
   labels were written, and satisfy its text filter.
   */
  lemma QueryTextKeepsItsRows(db: Database, reg: Registry, name: string, ms: seq<FieldMatcher>, fs: seq<TextFilter>,
                              format: int -> string, from: int, to: int, row: Row)
    requires Sane(db, format) && ClosedRegistry(reg, Logs)
    requires Trimmed(name) && '{' !in name && '|' !in name && AllPrintable(ms)
    requires |fs| <= 1 && forall i | 0 <= i < |fs| :: NoQuoteAtEnds(fs[i].term)
    requires AllSupported(AliasPairsOf(reg, Logs), ms) && Consistent(AliasPairsOf(reg, Logs), ms) && AllSearchable(fs)
    ensures var plan := ParseLokiQuery(reg, PrintSelector(name, ms) + PrintFilters(fs));
      && (plan.Ok? <==> PipeFree(ms))
      && (plan.Ok? ==>
            && WhereClauses(reg, plan.value, format, from, to).Ok?
            && var c := Condition(Join(WhereClauses(reg, plan.value, format, from, to).value, " AND "));
               c.Some? && (Passes(db, row, c.value) <==>
                             InBounds(row, from, to) && AllAsk(db, reg, row, ms) && FiltersHold(db, row, fs)))
  {
    hide Sane, ParseLokiQuery, PrintSelector, PrintFilters, AllSupported, Consistent, AllSearchable, AliasPairsOf;
    hide NormalizeFrom, Condition, Passes, InBounds, FiltersHold, AllAsk, MatchersHold, WhereClauses, Join, AllLabelled;
    hide IsRenamed, AllPrintable, PipeFree;
    var pairs := AliasPairsOf(reg, Logs);
    LogQueryRoundTrip(reg, name, ms, fs);
    NormalizesExactlyWhen(pairs, ms);
    NormalizedHaveExpr(reg, ms);
    var plan := LogPlan(Normalized(pairs, ms).value, fs);
    RenamedHold(db, reg, row, ms, plan.matchers);
    LoweringPreservesMeaning(db, reg, plan, format, from, to, row);
  }
}
