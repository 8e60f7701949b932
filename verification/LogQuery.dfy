/**
 Log queries (`src/query/log.rs`): a selector, and after the first `|=` or `|~` a text filter.
 */
module LogQuery {
  import opened BasicTypes
  import opened Text
  import opened Labels
  import opened Selector
  import opened Normalize

  datatype TextFilter = BodyContains(term: string) | BodyRegex(term: string)

  datatype LogPlan = LogPlan(matchers: seq<FieldMatcher>, textFilters: seq<TextFilter>)

  /** The position of the filter operator, and whether it is the regex one. */
  function FindFilter(raw: string): (r: Option<(nat, bool)>)
    ensures r.Some? ==> r.value.0 + 2 <= |raw|
  {
    match (Find(raw, "|="), Find(raw, "|~"))
    case (Some(contains), Some(regex)) => if regex < contains then Some((regex, true)) else Some((contains, false))
    case (Some(contains), None) => Some((contains, false))
    case (None, Some(regex)) => Some((regex, true))
    case (None, None) => None
  }

  function ParseLogPipeline(raw: string): (string, seq<TextFilter>) {
    match FindFilter(raw)
    case None => (Trim(raw), [])
    case Some((idx, regexFilter)) =>
      var term := Unquote(Trim(raw[idx + 2..]));
      (Trim(raw[..idx]), [if regexFilter then BodyRegex(term) else BodyContains(term)])
  }

  function ParseLokiQuery(reg: Registry, raw: string): ParseResult<LogPlan> {
    var (selector, textFilters) := ParseLogPipeline(raw);
    match ParseSelector(selector)
    case Err(reason) => Err(reason)
    case Ok((_, matchers)) =>
      match Normalized(AliasPairsOf(reg, Logs), matchers)
      case Err(reason) => Err(reason)
      case Ok(ms) => Ok(LogPlan(ms, textFilters))
  }

  // ----- Printing and parsing -----

  function FilterOp(f: TextFilter): string {
    if f.BodyContains? then "|=" else "|~"
  }

  function PrintFilter(f: TextFilter): string {
    " " + FilterOp(f) + " \"" + f.term + "\""
  }

  function PrintFilters(fs: seq<TextFilter>): string
    requires |fs| <= 1
  {
    if fs == [] then "" else PrintFilter(fs[0])
  }

  ghost predicate NoPipe(s: string) {
    Find(s, "|=").None? && Find(s, "|~").None?
  }

  /** Two texts without pipe operators, that do not form one where they meet. */
  lemma NoPipeAcross(a: string, b: string)
    requires NoPipe(a) && NoPipe(b) && (a != [] ==> a[|a| - 1] != '|')
    ensures NoPipe(a + b)
  {
    NoneAcross(a, b, "|=");
    NoneAcross(a, b, "|~");
  }

  lemma NoBarNoPipe(s: string)
    requires '|' !in s
    ensures NoPipe(s)
  {
    FindNothing(s, "|=");
    FindNothing(s, "|~");
  }

  /** No pattern starts in a text that lacks it and does not end in its first character. */
  lemma NothingBefore(before: string, pat: string, rest: string, j: nat)
    requires |pat| == 2 && Find(before, pat).None? && j < |before| && before[|before| - 1] != pat[0]
    ensures !(pat <= (before + rest)[j..])
  {
    var s := before + rest;
    if j + 1 < |before| {
      assert !(pat <= before[j..]);
      assert s[j..][0] == before[j..][0] && s[j..][1] == before[j..][1];
    } else {
      assert s[j..][0] == before[|before| - 1];
    }
  }

  /** Where a pattern is first found, after a text that has none. */
  lemma FoundAfter(before: string, pat: string, rest: string)
    requires |pat| == 2 && Find(before, pat).None? && before != [] && before[|before| - 1] != pat[0]
    ensures pat <= rest ==> Find(before + rest, pat) == Some(|before|)
    ensures !(pat <= rest) ==> Find(before + rest, pat).None? || Find(before + rest, pat).value > |before|
  {
    forall j: nat | j < |before| ensures !(pat <= (before + rest)[j..]) {
      NothingBefore(before, pat, rest, j);
    }
    assert (before + rest)[|before|..] == rest;
  }

  lemma OnlyItsOperator(f: TextFilter, quoted: string)
    ensures "|=" <= FilterOp(f) + quoted <==> f.BodyContains?
    ensures "|~" <= FilterOp(f) + quoted <==> f.BodyRegex?
  {
    assert (FilterOp(f) + quoted)[1] == FilterOp(f)[1];
  }

  /** The printed pipeline is cut at the printed operator, whatever the term contains. */
  lemma FilterFound(selector: string, f: TextFilter)
    requires NoPipe(selector)
    ensures FindFilter(selector + PrintFilter(f)) == Some((|selector| + 1, f.BodyRegex?))
  {
    hide Find, FilterOp, PrintFilter;
    var before, rest := selector + " ", FilterOp(f) + (" \"" + f.term + "\"");
    FilterText(selector, f);
    OnlyItsOperator(f, " \"" + f.term + "\"");
    NoBarNoPipe(" ");
    NoneAcross(selector, " ", "|=");
    NoneAcross(selector, " ", "|~");
    FoundAfter(before, "|=", rest);
    FoundAfter(before, "|~", rest);
  }

  lemma FilterText(selector: string, f: TextFilter)
    ensures selector + PrintFilter(f) == selector + " " + (FilterOp(f) + (" \"" + f.term + "\""))
  {
    hide FilterOp;
  }

  /** An operator in the selector is found before the printed one. */
  lemma PipeFoundInside(selector: string, tail: string)
    requires !NoPipe(selector)
    ensures FindFilter(selector + tail).Some? && FindFilter(selector + tail).value.0 + 2 <= |selector|
  {
    var pat := if Find(selector, "|=").Some? then "|=" else "|~";
    var i := Find(selector, pat).value;
    var raw := selector + tail;
    assert raw[i..][..2] == selector[i..][..2] == pat;
    assert pat <= raw[i..];
    assert Find(raw, pat).value <= i;
  }

  lemma FreePipelineParses(selector: string, f: TextFilter)
    requires Trimmed(selector) && NoPipe(selector)
    ensures ParseLogPipeline(selector + PrintFilter(f)) == (selector, [f]) <==> NoQuoteAtEnds(f.term)
  {
    hide Trim, Unquote, FindFilter, NoQuoteAtEnds;
    var raw, quoted := selector + PrintFilter(f), "\"" + f.term + "\"";
    FilterFound(selector, f);
    CutTexts(selector, f);
    TrimPadded([], selector, " ");
    assert Trimmed(quoted) by { assert quoted[0] == quoted[|quoted| - 1] == '"'; }
    TrimPadded(" ", quoted, []);
    UnquoteQuoted(f.term);
    TrimIdentity(quoted);
  }

  lemma CutTexts(selector: string, f: TextFilter)
    ensures (selector + PrintFilter(f))[..|selector| + 1] == [] + selector + " "
    ensures (selector + PrintFilter(f))[|selector| + 3..] == " " + ("\"" + f.term + "\"") + []
  {
  }

  /**
   A pipeline printed from a selector and a filter is parsed back exactly if the selector has
   no pipe operator, quoted or not, and the term keeps its ends.
   */
  lemma PipelineRoundTrip(selector: string, f: TextFilter)
    requires Trimmed(selector)
    ensures ParseLogPipeline(selector + PrintFilter(f)) == (selector, [f]) <==>
      NoPipe(selector) && NoQuoteAtEnds(f.term)
  {
    if NoPipe(selector) {
      FreePipelineParses(selector, f);
    } else {
      PipeFoundInside(selector, PrintFilter(f));
      hide Trim, Unquote, FindFilter, PrintFilter;
      assert |ParseLogPipeline(selector + PrintFilter(f)).0| < |selector|;
    }
  }

  // ----- The whole query -----

  ghost predicate PipeFree(ms: seq<FieldMatcher>) {
    forall i | 0 <= i < |ms| :: NoPipe(ms[i].value)
  }

  lemma MatcherNoPipe(m: FieldMatcher)
    requires Printable(m) && NoPipe(m.value)
    ensures NoPipe(PrintMatcher(m))
  {
    hide NoPipe;
    var start, end := m.field + OpText(m.op) + "\"", m.value + "\"";
    assert '|' !in start;
    NoBarNoPipe(start);
    NoBarNoPipe("\"");
    NoPipeBefore(m.value, "\"");
    NoPipeAcross(start, end);
    assert PrintMatcher(m) == start + end;
  }

  lemma NoPipeBefore(a: string, b: string)
    requires NoPipe(a) && NoPipe(b) && (b != [] ==> b[0] != '=' && b[0] != '~')
    ensures NoPipe(a + b)
  {
    NoneAcross(a, b, "|=");
    NoneAcross(a, b, "|~");
  }

  lemma {:induction false} MatchersNoPipe(ms: seq<FieldMatcher>)
    requires AllPrintable(ms) && PipeFree(ms)
    ensures NoPipe(Join(PrintMatchers(ms), ","))
  {
    hide NoPipe, Printable, PrintMatcher;
    if ms == [] {
      NoBarNoPipe("");
    } else {
      var p, later := PrintMatcher(ms[0]), PrintMatchers(ms[1..]);
      MatcherNoPipe(ms[0]);
      assert PrintMatchers(ms) == [p] + later;
      if |ms| > 1 {
        MatchersNoPipe(ms[1..]);
        JoinCons(p, later);
        NoBarNoPipe(",");
        NoPipeBefore(p, ",");
        NoPipeAcross(p + ",", Join(later, ","));
      }
    }
  }

  lemma SelectorNoPipe(name: string, ms: seq<FieldMatcher>)
    requires '|' !in name && AllPrintable(ms) && PipeFree(ms)
    ensures NoPipe(PrintSelector(name, ms))
  {
    hide NoPipe, PrintMatchers, Join;
    var block := Join(PrintMatchers(ms), ",");
    MatchersNoPipe(ms);
    NoBarNoPipe(name + "{");
    NoBarNoPipe("}");
    NoPipeBefore(block, "}");
    NoPipeAcross(name + "{", block + "}");
    assert PrintSelector(name, ms) == name + "{" + (block + "}");
  }

  lemma SelectorTrimmed(name: string, ms: seq<FieldMatcher>)
    requires Trimmed(name)
    ensures Trimmed(PrintSelector(name, ms))
  {
    var p := PrintSelector(name, ms);
    assert p[|p| - 1] == '}' && p[0] == if name == [] then '{' else name[0];
  }

  // ----- Pipe operators inside label values -----

  /** What stands before the value's quote: no pipe, and outside any quote. */
  lemma BeforeQuote(m: FieldMatcher)
    requires Printable(m)
    ensures NoPipe(m.field + OpText(m.op)) && Scan(OUTSIDE, m.field + OpText(m.op)) == OUTSIDE
  {
    var before := m.field + OpText(m.op);
    NoBarNoPipe(before);
    ScanPlain(OUTSIDE, before);
  }

  lemma PrintedPieces(m: FieldMatcher)
    ensures PrintMatcher(m) == m.field + OpText(m.op) + "\"" + m.value + "\""
  {
    hide OpText;
  }

  /** The first value with a pipe operator, and the texts around its quotes. */
  lemma {:induction false} FirstPiped(ms: seq<FieldMatcher>) returns (before: string, value: string, after: string)
    requires AllPrintable(ms) && !PipeFree(ms)
    ensures Join(PrintMatchers(ms), ",") == before + "\"" + value + after
    ensures Scan(OUTSIDE, before) == OUTSIDE && NoPipe(before) && !NoPipe(value)
    ensures '"' !in value && '\\' !in value
  {
    hide NoPipe, Scan, OpText, PrintMatcher, NoOperatorBefore, PlainField;
    var p, later := PrintMatcher(ms[0]), PrintMatchers(ms[1..]);
    assert PrintMatchers(ms) == [p] + later;
    if |ms| > 1 { JoinCons(p, later); }
    var rest := if |ms| == 1 then "" else "," + Join(later, ",");
    var all := Join(PrintMatchers(ms), ",");
    assert all == p + rest;
    hide Join, PrintMatchers;
    if !NoPipe(ms[0].value) {
      before, value, after := ms[0].field + OpText(ms[0].op), ms[0].value, "\"" + rest;
      BeforeQuote(ms[0]);
      PrintedPieces(ms[0]);
      assert all == before + "\"" + value + after;
    } else {
      PipeFreeCons(ms);
      hide PipeFree;
      assert |ms| > 1 by { NothingPiped(ms[1..]); }
      var b;
      b, value, after := FirstPiped(ms[1..]);
      before := p + "," + b;
      assert all == before + "\"" + value + after;
      PipedLater(ms[0], b);
    }
  }

  lemma NothingPiped(ms: seq<FieldMatcher>)
    ensures ms == [] ==> PipeFree(ms)
  {
  }

  lemma PipedLater(m: FieldMatcher, b: string)
    requires Printable(m) && NoPipe(m.value) && NoPipe(b) && Scan(OUTSIDE, b) == OUTSIDE
    ensures NoPipe(PrintMatcher(m) + "," + b) && Scan(OUTSIDE, PrintMatcher(m) + "," + b) == OUTSIDE
  {
    hide NoPipe, Scan, PrintMatcher, Printable;
    var p := PrintMatcher(m);
    MatcherNoPipe(m);
    NoBarNoPipe(",");
    NoPipeBefore(p, ",");
    NoPipeAcross(p + ",", b);
    PrintedUncut(m);
    CommaScans(p, b);
  }

  lemma CommaScans(p: string, b: string)
    requires Scan(OUTSIDE, p) == OUTSIDE && Scan(OUTSIDE, b) == OUTSIDE
    ensures Scan(OUTSIDE, p + "," + b) == OUTSIDE
  {
    hide Scan;
    ScanConcat(OUTSIDE, p + ",", b);
    ScanConcat(OUTSIDE, p, ",");
    ScanOne(OUTSIDE, ',');
  }

  lemma PipeFreeCons(ms: seq<FieldMatcher>)
    requires ms != []
    ensures PipeFree(ms) <==> NoPipe(ms[0].value) && PipeFree(ms[1..])
  {
    hide NoPipe;
    assert forall i | 0 <= i < |ms[1..]| :: ms[1..][i] == ms[i + 1];
    assert forall i | 1 <= i < |ms| :: ms[i] == ms[1..][i - 1];
  }

  lemma {:induction false} TrimEndAfter(a: string, s: string)
    requires a != [] && !IsSpace(a[|a| - 1])
    ensures TrimEnd(a + s) == a + TrimEnd(s)
    decreases |s|
  {
    if s == [] {
      assert a + s == a;
    } else if IsSpace(s[|s| - 1]) {
      assert (a + s)[..|a + s| - 1] == a + s[..|s| - 1];
      TrimEndAfter(a, s[..|s| - 1]);
    }
  }

  lemma TrimOpen(start: string, value: string)
    requires start != [] && !IsSpace(start[0]) && !IsSpace(start[|start| - 1])
    ensures Trim(start + value) == start + TrimEnd(value)
  {
    TrimEndAfter(start, value);
    hide TrimEnd, IsSpace;
    assert (start + value)[0] == start[0];
    assert TrimStart(start + value) == start + value;
  }

  lemma StartStays(name: string, before: string)
    requires Trimmed(name)
    ensures var start := name + "{" + before + "\""; !IsSpace(start[0]) && !IsSpace(start[|start| - 1])
  {
    var start := name + "{" + before + "\"";
    assert start[0] == (if name == [] then '{' else name[0]) && start[|start| - 1] == '"';
  }

  /** A selector that ends inside a quote is no selector. */
  lemma OpenQuoteFails(name: string, before: string, value: string)
    requires Trimmed(name) && '{' !in name && Scan(OUTSIDE, before) == OUTSIDE && '"' !in value && '\\' !in value
    ensures ParseSelector(name + "{" + before + "\"" + value).Err?
  {
    var kept := TrimEnd(value);
    hide Trim, TrimEnd, Trimmed, SplitOnce, Scan, ParseBlock, IsSpace;
    var start, block := name + "{" + before + "\"", before + "\"" + kept;
    StartStays(name, before);
    TrimOpen(start, value);
    assert start + kept == name + "{" + block;
    FindAfter(name, "{", block);
    BlockFails(Trim(name), before, kept);
  }

  lemma SuffixAfterQuote(before: string, kept: string)
    ensures var r := StripSuffix(before + "\"" + kept, "}");
      r.None? || (kept != [] && r.value == before + "\"" + kept[..|kept| - 1])
  {
    var s := before + "\"" + kept;
    assert s[|s| - 1] == if kept == [] then '"' else kept[|kept| - 1];
    if kept == [] {
      assert s[|s| - 1..] == ['"'];
    }
  }

  lemma BlockFails(name: string, before: string, kept: string)
    requires Scan(OUTSIDE, before) == OUTSIDE && '"' !in kept && '\\' !in kept
    ensures ParseBlock(name, before + "\"" + kept).Err?
  {
    hide Scan, StripSuffix, Pieces, ParseParts;
    SuffixAfterQuote(before, kept);
    if kept != [] {
      OpenScans(before, kept[..|kept| - 1]);
    }
  }

  lemma OpenScans(before: string, inside: string)
    requires Scan(OUTSIDE, before) == OUTSIDE && '"' !in inside && '\\' !in inside
    ensures Scan(OUTSIDE, before + "\"" + inside).inQuote
  {
    ScanPlain(Quoting(true, false), inside);
    hide Scan;
    ScanConcat(OUTSIDE, before + "\"", inside);
    ScanConcat(OUTSIDE, before, "\"");
    ScanOne(OUTSIDE, '"');
  }

  /** A pipe operator after a text without one is found in or after what follows. */
  lemma FilterNotBefore(before: string, rest: string)
    requires NoPipe(before) && before != [] && before[|before| - 1] != '|'
    ensures FindFilter(before + rest).Some? ==> FindFilter(before + rest).value.0 >= |before|
  {
    FoundAfter(before, "|=", rest);
    FoundAfter(before, "|~", rest);
  }

  /** A pipe operator in a label value cuts the query inside the quotes, and no selector is left. */
  lemma PipedValueFails(reg: Registry, name: string, ms: seq<FieldMatcher>, tail: string)
    requires Trimmed(name) && '{' !in name && '|' !in name && AllPrintable(ms) && !PipeFree(ms)
    ensures ParseLokiQuery(reg, PrintSelector(name, ms) + tail).Err?
  {
    hide AllPrintable, PipeFree, Scan, Trimmed, ParseLokiQuery, PrintMatchers, Join;
    var before, value, after := FirstPiped(ms);
    var start, rest := name + "{" + before + "\"", after + "}" + tail;
    assert PrintSelector(name, ms) + tail == start + value + rest;
    PipedTextFails(reg, name, before, value, rest);
  }

  lemma PipedTextFails(reg: Registry, name: string, before: string, value: string, rest: string)
    requires Trimmed(name) && '{' !in name && '|' !in name && NoPipe(before) && Scan(OUTSIDE, before) == OUTSIDE
    requires !NoPipe(value) && '"' !in value && '\\' !in value
    ensures ParseLokiQuery(reg, name + "{" + before + "\"" + value + rest).Err?
  {
    hide NoPipe, FindFilter, Trimmed, Scan, ParseSelector, Trim, AliasPairsOf, Normalized, Unquote;
    var start := name + "{" + before + "\"";
    StartHasNoPipe(name, before);
    FoundInValue(start, value, rest);
    var idx := FindFilter(start + value + rest).value.0;
    var cut := value[..idx - |start|];
    OpenQuoteFails(name, before, cut);
    TrimTwice(start + cut);
  }

  lemma FoundInValue(start: string, value: string, rest: string)
    requires NoPipe(start) && start != [] && start[|start| - 1] == '"' && !NoPipe(value)
    ensures var raw := start + value + rest; var f := FindFilter(raw);
      && f.Some? && |start| <= f.value.0 <= |start| + |value|
      && raw[..f.value.0] == start + value[..f.value.0 - |start|]
  {
    hide NoPipe, FindFilter;
    PipeStays(start, value);
    PipeFoundInside(start + value, rest);
    FilterNotBefore(start, value + rest);
    ThreeParts(start, value, rest, |start|);
    ThreeParts(start, value, rest, FindFilter(start + value + rest).value.0);
  }

  lemma ThreeParts(a: string, b: string, c: string, k: nat)
    requires |a| <= k <= |a| + |b|
    ensures a + b + c == a + (b + c) && (a + b + c)[..k] == a + b[..k - |a|]
  {
  }

  lemma StartHasNoPipe(name: string, before: string)
    requires '|' !in name && NoPipe(before)
    ensures NoPipe(name + "{" + before + "\"")
  {
    NoBarNoPipe(name + "{");
    NoBarNoPipe("\"");
    hide NoPipe;
    NoPipeAcross(name + "{", before);
    NoPipeBefore(name + "{" + before, "\"");
  }

  lemma PipeStays(start: string, value: string)
    requires !NoPipe(value)
    ensures !NoPipe(start + value)
  {
    var pat := if Find(value, "|=").Some? then "|=" else "|~";
    ContainsInside(start, value, "", pat);
    assert start + value + "" == start + value;
  }

  /** The selector's own trimming makes an earlier one redundant. */
  lemma TrimTwice(s: string)
    ensures ParseSelector(Trim(s)) == ParseSelector(s)
  {
    TrimIdentity(Trim(s));
    hide Trim, SplitOnce, ParseBlock;
  }

  // ----- Printed queries -----

  /**
   A printed log query is parsed to its normalized matchers and its filter if no label value
   has a pipe operator; if one has, the query is refused.
   */
  lemma LogQueryRoundTrip(reg: Registry, name: string, ms: seq<FieldMatcher>, fs: seq<TextFilter>)
    requires Trimmed(name) && '{' !in name && '|' !in name && AllPrintable(ms)
    requires |fs| <= 1 && forall i | 0 <= i < |fs| :: NoQuoteAtEnds(fs[i].term)
    ensures var r := ParseLokiQuery(reg, PrintSelector(name, ms) + PrintFilters(fs));
      if !PipeFree(ms) then r.Err?
      else
        var normalized := Normalized(AliasPairsOf(reg, Logs), ms);
        r == if normalized.Err? then Err(normalized.reason) else Ok(LogPlan(normalized.value, fs))
  {
    if PipeFree(ms) {
      FreeQueryParses(reg, name, ms, fs);
    } else {
      hide PipeFree, AllPrintable, PrintSelector, PrintFilters, ParseLokiQuery;
      PipedValueFails(reg, name, ms, PrintFilters(fs));
    }
  }

  lemma FreeQueryParses(reg: Registry, name: string, ms: seq<FieldMatcher>, fs: seq<TextFilter>)
    requires Trimmed(name) && '{' !in name && '|' !in name && AllPrintable(ms) && PipeFree(ms)
    requires |fs| <= 1 && forall i | 0 <= i < |fs| :: NoQuoteAtEnds(fs[i].term)
    ensures ParseLokiQuery(reg, PrintSelector(name, ms) + PrintFilters(fs)) ==
      var normalized := Normalized(AliasPairsOf(reg, Logs), ms);
      if normalized.Err? then Err(normalized.reason) else Ok(LogPlan(normalized.value, fs))
  {
    hide Normalized, AliasPairsOf, ParseSelector, PrintSelector, AllPrintable, PipeFree, NoPipe, Trimmed;
    hide ParseLogPipeline;
    var selector := PrintSelector(name, ms);
    SelectorNoPipe(name, ms);
    SelectorTrimmed(name, ms);
    SelectorRoundTrip(name, ms);
    if fs == [] {
      NoFilter(selector);
      assert selector + PrintFilters(fs) == selector;
    } else {
      PipelineRoundTrip(selector, fs[0]);
      assert fs == [fs[0]];
    }
  }

  lemma NoFilter(selector: string)
    requires Trimmed(selector) && NoPipe(selector)
    ensures ParseLogPipeline(selector) == (selector, [])
  {
    TrimIdentity(selector);
  }
}
