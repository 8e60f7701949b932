/**
 Parentheses inside quoted values (`src/query/prometheus.rs:182-234`). The parser counts them
 like any other, so an aggregation whose operand is not balanced is cut inside a quote and
 refused. With that, the queries that are parsed to their meaning are known exactly.
 */
module PromQLBalance {
  import opened BasicTypes
  import opened Text
  import opened Labels
  import opened Selector
  import opened Parens
  import opened PromQL
  import opened PromQLRoundTrip
  import opened PromQLResults

  // ----- Texts that end inside a quote -----

  /** A name, a brace, and matchers that end inside a quote. */
  predicate OpenQuote(t: string, name: string) {
    |name| < |t| && t[..|name|] == name && t[|name|] == '{' && Scan(OUTSIDE, t[|name| + 1..]).inQuote
  }

  /** So does whatever is left of it when it is cut at a bracket. */
  ghost predicate Torn(t: string, name: string) {
    && '{' !in name && OpenQuote(t, name) && !IsSpace(t[0])
    && forall j | 0 <= j < |t| && t[j] == '[' :: OpenQuote(t[..j], name)
  }

  /** Only a quote leads out of a quote. */
  lemma StillQuoted(s: string, c: char)
    requires Scan(OUTSIDE, s + [c]).inQuote && c != '"'
    ensures Scan(OUTSIDE, s).inQuote
  {
    ScanConcat(OUTSIDE, s, [c]);
    ScanOne(Scan(OUTSIDE, s), c);
  }

  lemma OpenDropped(t: string, name: string)
    requires OpenQuote(t, name) && t[|t| - 1] != '"'
    ensures OpenQuote(t[..|t| - 1], name)
  {
    var block, shorter := t[|name| + 1..], t[..|t| - 1];
    assert block != [];
    assert block == block[..|block| - 1] + [t[|t| - 1]];
    StillQuoted(block[..|block| - 1], t[|t| - 1]);
    hide Scan;
    assert shorter[..|name|] == name && shorter[|name| + 1..] == block[..|block| - 1];
  }

  lemma TornDropped(t: string, name: string)
    requires Torn(t, name) && t[|t| - 1] != '"'
    ensures Torn(t[..|t| - 1], name)
  {
    OpenDropped(t, name);
    hide OpenQuote;
    var shorter := t[..|t| - 1];
    forall j | 0 <= j < |shorter| && shorter[j] == '[' ensures OpenQuote(shorter[..j], name) {
      assert shorter[..j] == t[..j] && t[j] == '[';
    }
    NameBegins(shorter, name);
    assert shorter[0] == t[0];
  }

  lemma NameBegins(t: string, name: string)
    requires OpenQuote(t, name)
    ensures t != [] && t == name + "{" + t[|name| + 1..]
  {
    hide Scan;
  }

  lemma {:induction false} OpenTrimmed(t: string, name: string)
    requires OpenQuote(t, name)
    ensures OpenQuote(TrimEnd(t), name)
    decreases |t|
  {
    if IsSpace(t[|t| - 1]) {
      OpenDropped(t, name);
      OpenTrimmed(t[..|t| - 1], name);
    }
  }

  lemma NothingToTrim(t: string)
    requires t != [] && !IsSpace(t[0])
    ensures TrimStart(t) == t && Trim(t) == TrimEnd(t)
  {
  }

  lemma TornTrimmed(t: string, name: string)
    requires Torn(t, name)
    ensures Trim(t) == TrimEnd(t) && Torn(TrimEnd(t), name)
  {
    OpenTrimmed(t, name);
    NameBegins(t, name);
    NothingToTrim(t);
    hide OpenQuote, IsSpace, TrimStart;
    var u := TrimEnd(t);
    NameBegins(u, name);
    hide TrimEnd;
    assert u == t[..|u|] && u[0] == t[0];
    forall j | 0 <= j < |u| && u[j] == '[' ensures OpenQuote(u[..j], name) {
      assert u[..j] == t[..j] && t[j] == '[';
    }
  }

  lemma BlockFails(name: string, rest: string)
    requires Scan(OUTSIDE, rest).inQuote
    ensures ParseBlock(name, rest).Err?
  {
    var block := StripSuffix(rest, "}");
    if block.Some? {
      assert rest == block.value + ['}'];
      StillQuoted(block.value, '}');
      hide Scan;
    }
  }

  lemma SelectorFails(t: string, name: string)
    requires OpenQuote(t, name) && '{' !in name && !IsSpace(t[0])
    ensures ParseSelector(t).Err?
  {
    OpenTrimmed(t, name);
    var u := TrimEnd(t);
    assert TrimStart(t) == t && Trim(t) == u;
    NameBegins(u, name);
    FindAfter(name, "{", u[|name| + 1..]);
    BlockFails(Trim(name), u[|name| + 1..]);
    hide Trim, TrimEnd, Scan, ParseBlock, SplitOnce;
  }

  /** Neither a range nor a closing brace is found where it could end the quote. */
  lemma FinishFails(reg: Registry, agg: Aggregation, groups: seq<string>, explicit: bool, t: string, name: string)
    requires Torn(t, name)
    ensures Finish(reg, agg, groups, explicit, t).Err?
  {
    TornTrimmed(t, name);
    RangeLeavesOpen(TrimEnd(t), name);
    hide OpenQuote, ParseSelector, Trim, TrimEnd, StripRangeSelector;
    StripsTrimmed(t);
    SelectorFails(StripRangeSelector(t), name);
  }

  lemma StripsTrimmed(t: string)
    ensures StripRangeSelector(t) == StripRangeSelector(Trim(t))
  {
    TrimIdentity(Trim(t));
    hide Trim, RFind;
  }

  lemma RangeLeavesOpen(raw: string, name: string)
    requires Torn(raw, name) && Trim(raw) == raw
    ensures var u := StripRangeSelector(raw); OpenQuote(u, name) && !IsSpace(u[0])
  {
    hide OpenQuote, Trim;
    NameBegins(raw, name);
    var s := StripSuffix(raw, "]");
    if s.Some? && RFind(s.value, '[').Some? {
      var end := RFind(s.value, '[').value;
      assert raw[end] == s.value[end] == '[';
      CutTrimmed(raw, name, end);
    }
  }

  lemma CutTrimmed(raw: string, name: string, end: nat)
    requires end < |raw| && OpenQuote(raw[..end], name) && !IsSpace(raw[0])
    ensures var u := Trim(raw[..end]); OpenQuote(u, name) && !IsSpace(u[0])
  {
    var t := raw[..end];
    OpenTrimmed(t, name);
    NameBegins(t, name);
    hide OpenQuote;
    assert t[0] == raw[0];
    assert TrimStart(t) == t;
    NameBegins(TrimEnd(t), name);
    assert TrimEnd(t)[0] == t[0];
  }

  lemma NoOuterParens(t: string)
    requires t != [] && Trim(t) == t && t[0] != '('
    ensures Stripped(t) == t
  {
    hide Trim;
  }

  lemma {:induction false} StartKeeps(s: string, c: char)
    requires c in s && !IsSpace(c)
    ensures c in TrimStart(s)
  {
    if IsSpace(s[0]) {
      StartKeeps(s[1..], c);
    }
  }

  lemma {:induction false} EndKeeps(s: string, c: char)
    requires c in s && !IsSpace(c)
    ensures c in TrimEnd(s)
  {
    if IsSpace(s[|s| - 1]) {
      assert s == s[..|s| - 1] + [s[|s| - 1]];
      EndKeeps(s[..|s| - 1], c);
    }
  }

  lemma NoKeyword(func: string)
    requires '{' in func
    ensures AggregationKeyword(Trim(func)).None?
  {
    StartKeeps(func, '{');
    EndKeeps(TrimStart(func), '{');
    hide TrimStart, TrimEnd;
    BraceInNoKeyword(Trim(func));
  }

  lemma BraceInNoKeyword(word: string)
    requires '{' in word
    ensures AggregationKeyword(word).None?
  {
  }

  /** What stands before a parenthesis in a torn metric is no function. */
  lemma NoFunction(u: string, name: string)
    requires OpenQuote(u, name) && '(' !in name
    ensures UnwrapFunc(u).Some? ==> AggregationKeyword(UnwrapFunc(u).value.0).None?
  {
    hide OpenQuote, AggregationKeyword, Trim, Find;
    var open := Find(u, "(");
    if open.Some? {
      OpensAfterName(u, name, open.value);
      NoKeyword(u[..open.value]);
    }
  }

  /** The text of a metric that is torn is refused as an operand. */
  lemma MetricTextFails(reg: Registry, agg: Aggregation, groups: seq<string>, explicit: bool, t: string, name: string)
    requires Torn(t, name) && '(' !in name && t[0] != '('
    ensures WithInner(reg, agg, groups, explicit, Stripped(Trim(t))).Err?
  {
    TornTrimmed(t, name);
    var u := TrimEnd(t);
    TornIsOpen(t, name);
    TornIsOpen(u, name);
    hide Torn, Finish, Stripped, TrimEnd, Trim, AggregationKeyword, UnwrapFunc;
    FirstIsSame(t, u, name);
    NoFunction(u, name);
    hide OpenQuote;
    TrimmedTwice(t);
    NoOuterParens(u);
    FinishFails(reg, agg, groups, explicit, u, name);
  }

  lemma TrimmedTwice(t: string)
    ensures Trim(Trim(t)) == Trim(t)
  {
    TrimIdentity(Trim(t));
  }

  lemma OpensAfterName(u: string, name: string, open: nat)
    requires OpenQuote(u, name) && '(' !in name && open < |u| && u[open..] != [] && "(" <= u[open..]
    ensures '{' in u[..open]
  {
    hide Scan;
    assert u[open] == u[open..][0] == '(';
    assert forall k | 0 <= k < |name| :: u[k] == u[..|name|][k] && u[k] in name;
    assert open > |name| && u[..open][|name|] == '{';
  }

  /** A torn text stays torn behind a call. */
  lemma TornBehind(start: string, t: string, name: string)
    requires Torn(t, name) && start != [] && '{' !in start && '[' !in start && !IsSpace(start[0])
    ensures Torn(start + t, start + name)
  {
    var whole := start + t;
    OpenBehind(start, t, name);
    hide OpenQuote;
    assert forall k | 0 <= k < |start| :: whole[k] == start[k] && whole[k] in start;
    forall j | 0 <= j < |whole| && whole[j] == '[' ensures OpenQuote(whole[..j], start + name) {
      assert j >= |start|;
      assert t[j - |start|] == '[' && whole[..j] == start + t[..j - |start|];
      OpenBehind(start, t[..j - |start|], name);
    }
  }

  lemma OpenBehind(start: string, t: string, name: string)
    requires OpenQuote(t, name)
    ensures OpenQuote(start + t, start + name)
  {
    hide Scan;
    var whole, both := start + t, start + name;
    assert whole[..|both|] == start + t[..|name|];
    assert whole[|both| + 1..] == t[|name| + 1..];
  }

  lemma {:induction false} EndTrimmedBehind(start: string, t: string)
    requires TrimEnd(t) != []
    ensures TrimEnd(start + t) == start + TrimEnd(t)
    decreases |t|
  {
    hide IsSpace;
    var whole := start + t;
    assert whole[|whole| - 1] == t[|t| - 1];
    if IsSpace(t[|t| - 1]) {
      assert whole[..|whole| - 1] == start + t[..|t| - 1];
      EndTrimmedBehind(start, t[..|t| - 1]);
    }
  }

  function CallStart(func: Aggregation): string {
    KeywordText(func) + "("
  }

  lemma CallStartIsPlain(func: Aggregation)
    ensures var start := CallStart(func);
      start != [] && '{' !in start && '[' !in start && !IsSpace(start[0]) && start[0] != '('
  {
    KeywordIsPlain(func);
    IdentIsPlain(KeywordText(func));
  }

  /** So is a call of which the closing parenthesis and part of the metric are cut off. */
  lemma CallTextFails(reg: Registry, agg: Aggregation, groups: seq<string>, explicit: bool, func: Aggregation,
                      t: string, name: string)
    requires Torn(t, name) && t[0] != '('
    ensures WithInner(reg, agg, groups, explicit, Stripped(Trim(CallStart(func) + t))).Err?
  {
    var u := TrimEnd(t);
    TornTrimmed(t, name);
    CallTrimmed(func, t, name);
    TornIsOpen(t, name);
    TornIsOpen(u, name);
    hide Torn, Finish, Stripped, Trim, TrimEnd, CallStart, WithInner;
    FirstIsSame(t, u, name);
    hide OpenQuote;
    NoOuterParens(CallStart(func) + u);
    InnerOfCall(reg, agg, groups, explicit, func, u);
    if u[|u| - 1] == ')' {
      UnwrappedFails(reg, func, groups, explicit, u, name);
    } else {
      CallStartIsPlain(func);
      TornBehind(CallStart(func), u, name);
      FinishFails(reg, agg, groups, explicit, CallStart(func) + u, CallStart(func) + name);
    }
  }

  lemma InnerOfCall(reg: Registry, agg: Aggregation, groups: seq<string>, explicit: bool, func: Aggregation, u: string)
    requires u != []
    ensures WithInner(reg, agg, groups, explicit, CallStart(func) + u) ==
      if u[|u| - 1] == ')' then Finish(reg, func, groups, explicit, Stripped(Trim(u[..|u| - 1])))
      else Finish(reg, agg, groups, explicit, CallStart(func) + u)
  {
    CallUnwrapped(func, u);
    KeywordIsPlain(func);
    hide CallStart, KeywordText, Finish, Stripped, Trim, UnwrapFunc, AggregationKeyword;
  }

  /** And so is what stands between its parentheses. */
  lemma UnwrappedFails(reg: Registry, func: Aggregation, groups: seq<string>, explicit: bool, u: string, name: string)
    requires Torn(u, name) && u[0] != '(' && u[|u| - 1] == ')'
    ensures Finish(reg, func, groups, explicit, Stripped(Trim(u[..|u| - 1]))).Err?
  {
    var v := u[..|u| - 1];
    TornDropped(u, name);
    TornTrimmed(v, name);
    hide Torn, Finish, Stripped, Trim, TrimEnd;
    TornIsOpen(u, name);
    TornIsOpen(TrimEnd(v), name);
    FirstIsSame(u, TrimEnd(v), name);
    TrimIdentity(Trim(v));
    hide OpenQuote;
    NoOuterParens(TrimEnd(v));
    FinishFails(reg, func, groups, explicit, TrimEnd(v), name);
  }

  lemma TornIsOpen(t: string, name: string)
    requires Torn(t, name)
    ensures OpenQuote(t, name) && t != []
  {
    hide Scan;
  }

  lemma FirstIsSame(t: string, u: string, name: string)
    requires OpenQuote(t, name) && OpenQuote(u, name)
    ensures t[0] == u[0]
  {
    hide Scan;
    if name != [] {
      assert t[0] == t[..|name|][0] && u[0] == u[..|name|][0];
    }
  }

  lemma CallTrimmed(func: Aggregation, t: string, name: string)
    requires Torn(t, name)
    ensures Trim(CallStart(func) + t) == CallStart(func) + TrimEnd(t)
    ensures Trim(CallStart(func) + TrimEnd(t)) == CallStart(func) + TrimEnd(t)
    ensures (CallStart(func) + TrimEnd(t))[0] != '('
  {
    var start := CallStart(func);
    CallStartIsPlain(func);
    TornTrimmed(t, name);
    NameBegins(TrimEnd(t), name);
    hide OpenQuote, CallStart;
    EndTrimmedBehind(start, t);
    assert (start + t)[0] == start[0] && TrimStart(start + t) == start + t;
    hide TrimStart, TrimEnd;
    TrimIdentity(Trim(start + t));
  }

  lemma CallUnwrapped(func: Aggregation, u: string)
    requires u != []
    ensures UnwrapFunc(CallStart(func) + u) ==
      if u[|u| - 1] == ')' then Some((KeywordText(func), Trim(u[..|u| - 1]))) else None
  {
    var kw, s := KeywordText(func), CallStart(func) + u;
    hide CallStart, KeywordText, AllIdentChars, Trim, Find, AggregationKeyword;
    KeywordIsPlain(func);
    IdentIsPlain(kw);
    TrimIdentity(kw);
    CallParts(func, u);
    FindAfter(kw, "(", u);
    assert s[|s| - 1] == u[|u| - 1];
  }

  lemma CallParts(func: Aggregation, u: string)
    requires u != []
    ensures var kw, s := KeywordText(func), CallStart(func) + u;
      && s == kw + "(" + u && s[..|kw|] == kw
      && s[|kw| + 1..|s| - 1] == u[..|u| - 1]
  {
    hide KeywordText;
  }

  // ----- Where a metric has its parentheses -----

  /** No field of a matcher has a bracket in it. */
  ghost predicate NoBracketFields(m: Metric) {
    forall i | 0 <= i < |Matchers(m)| :: '[' !in Matchers(m)[i].field
  }

  predicate QuotedOnly(c: char) {
    c == ')' || c == '['
  }

  lemma MatcherQuoted(m: FieldMatcher, j: nat)
    requires PlainMatcher(m) && '[' !in m.field && j < |PrintMatcher(m)| && QuotedOnly(PrintMatcher(m)[j])
    ensures Scan(OUTSIDE, PrintMatcher(m)[..j]).inQuote
  {
    var p, start := PrintMatcher(m), m.field + OpText(m.op) + "\"";
    assert p == start + (m.value + "\"");
    StartHasNone(m);
    assert forall k | 0 <= k < |start| :: p[k] == start[k];
    assert p[|p| - 1] == '"';
    assert |start| <= j < |start| + |m.value|;
    var read := m.value[..j - |start|];
    assert p[..j] == start + read;
    StartQuotes(m);
    assert forall c | c in read :: c in m.value;
    ScanPlain(Quoting(true, false), read);
    ScanConcat(OUTSIDE, start, read);
  }

  lemma StartHasNone(m: FieldMatcher)
    requires PlainMatcher(m) && '[' !in m.field
    ensures var start := m.field + OpText(m.op) + "\""; forall k | 0 <= k < |start| :: !QuotedOnly(start[k])
  {
    assert forall k | 0 <= k < |m.field| :: m.field[k] in m.field;
  }

  lemma StartQuotes(m: FieldMatcher)
    requires PlainMatcher(m)
    ensures Scan(OUTSIDE, m.field + OpText(m.op) + "\"") == Quoting(true, false)
  {
    ScanPlain(OUTSIDE, m.field);
    ScanPlain(OUTSIDE, OpText(m.op));
    ScanOne(OUTSIDE, '"');
    hide Scan, Uncut;
    ScanConcat(OUTSIDE, m.field, OpText(m.op));
    ScanConcat(OUTSIDE, m.field + OpText(m.op), "\"");
  }

  lemma {:induction false} BlockQuoted(ms: seq<FieldMatcher>, j: nat)
    requires forall i | 0 <= i < |ms| :: PlainMatcher(ms[i]) && '[' !in ms[i].field
    requires var block := Join(PrintMatchers(ms), ","); j < |block| && QuotedOnly(block[j])
    ensures Scan(OUTSIDE, Join(PrintMatchers(ms), ",")[..j]).inQuote
  {
    hide Scan, PrintMatcher, PlainMatcher;
    if ms != [] {
      var block, p, later := Join(PrintMatchers(ms), ","), PrintMatcher(ms[0]), PrintMatchers(ms[1..]);
      assert PrintMatchers(ms) == [p] + later;
      BlockBegins(p, later);
      if j < |p| {
        assert block[..j] == p[..j] && block[j] == p[j];
        MatcherQuoted(ms[0], j);
      } else {
        var k := j - |p| - 1;
        assert block[|p|] == ',' && k >= 0;
        assert block[j] == Join(later, ",")[k];
        BlockQuoted(ms[1..], k);
        PlainIsPrintable(ms[0]);
        PrintedUncut(ms[0]);
        SplitCons(p, Join(later, ",")[..k]);
        assert block[..j] == p + "," + Join(later, ",")[..k];
      }
    }
  }

  lemma BlockBegins(p: string, later: seq<string>)
    ensures Join([p] + later, ",") == if later == [] then p else p + "," + Join(later, ",")
  {
    assert ([p] + later)[1..] == later;
  }

  lemma PlainIsPrintable(m: FieldMatcher)
    requires PlainMatcher(m)
    ensures Printable(m)
  {
  }

  /** A parenthesis or bracket before a metric's range stands inside a quote. */
  lemma BaseQuoted(m: Metric, j: nat)
    requires PlainMetric(m) && NoBracketFields(m) && j < |PrintBase(m)| && QuotedOnly(PrintBase(m)[j])
    ensures OpenQuote(PrintBase(m)[..j], m.name)
  {
    var base, name := PrintBase(m), m.name;
    IdentIsPlain(name);
    NotInIdent(name);
    BaseText(m);
    hide PlainMetric, PrintBase, Scan, PrintMatchers, Join, AllIdentChars, NoBracketFields;
    var block := Join(PrintMatchers(m.matchers), ",");
    FieldsArePlain(m);
    InBlock(name, block, j);
    BlockQuoted(m.matchers, j - |name| - 1);
  }

  lemma BaseText(m: Metric)
    ensures PrintBase(m) == if m.Bare? then m.name else m.name + "{" + Join(PrintMatchers(m.matchers), ",") + "}"
  {
    hide PrintMatchers, Join;
  }

  lemma NotInIdent(name: string)
    requires AllIdentChars(name)
    ensures forall k | 0 <= k < |name| :: !QuotedOnly(name[k])
  {
  }

  /** A character in the block of a selector, and what stands before it. */
  lemma InBlock(name: string, block: string, j: nat)
    requires forall k | 0 <= k < |name| :: !QuotedOnly(name[k])
    requires var base := name + "{" + block + "}"; j < |base| && QuotedOnly(base[j])
    ensures var base, k := name + "{" + block + "}", j - |name| - 1;
      && 0 <= k < |block| && block[k] == base[j]
      && base[..j][..|name|] == name && base[..j][|name|] == '{' && base[..j][|name| + 1..] == block[..k]
  {
    var base := name + "{" + block + "}";
    assert forall k | 0 <= k < |name| :: base[k] == name[k];
    assert base[|name|] == '{' && base[|base| - 1] == '}';
    assert |name| < j < |base| - 1;
    var k := j - |name| - 1;
    assert base[..j] == name + "{" + block[..k];
  }

  lemma FieldsArePlain(m: Metric)
    requires PlainMetric(m) && NoBracketFields(m) && m.Braced?
    ensures forall i | 0 <= i < |m.matchers| :: PlainMatcher(m.matchers[i]) && '[' !in m.matchers[i].field
  {
    MatchersPlain(m);
    hide PlainMatcher;
    forall i | 0 <= i < |m.matchers| ensures '[' !in m.matchers[i].field {
      assert '[' !in Matchers(m)[i].field;
    }
  }

  lemma MetricTorn(m: Metric, i: nat)
    requires PlainMetric(m) && NoBracketFields(m) && i < |PrintMetric(m)| && PrintMetric(m)[i] == ')'
    ensures Torn(PrintMetric(m)[..i], m.name) && '(' !in m.name
    ensures PrintMetric(m)[..i][0] != '('
  {
    hide PlainMetric, PrintBase, OpenQuote, NoBracketFields, PrintMetric;
    var text, base := PrintMetric(m), PrintBase(m);
    MetricStands(m);
    NameIsIdent(m);
    IdentIsPlain(m.name);
    ParenInBase(m, i);
    assert base == text[..|base|] && base[i] == text[i];
    BaseQuoted(m, i);
    assert text[..i] == base[..i];
    NameBegins(text[..i], m.name);
    forall j | 0 <= j < i && text[..i][j] == '[' ensures OpenQuote(text[..i][..j], m.name) {
      assert base[j] == text[..i][j];
      BaseQuoted(m, j);
      assert text[..i][..j] == base[..j];
    }
  }

  lemma ParenInBase(m: Metric, i: nat)
    requires PlainMetric(m) && i < |PrintMetric(m)| && PrintMetric(m)[i] == ')'
    ensures i < |PrintBase(m)| && PrintBase(m) <= PrintMetric(m)
  {
    hide PrintBase;
    if m.range.Some? {
      RangeIsPlain(m);
      var end := "[" + m.range.value + "]";
      assert PrintMetric(m) == PrintBase(m) + end;
      assert forall k | |PrintBase(m)| <= k < |PrintMetric(m)| ::
          PrintMetric(m)[k] == end[k - |PrintBase(m)|] && PrintMetric(m)[k] != ')';
    } else {
      assert PrintMetric(m) == PrintBase(m);
    }
  }

  // ----- Operands cut short -----

  /** The operand of an aggregation: a metric, or a function of one. */
  function OperandText(func: Option<Aggregation>, m: Metric): string {
    if func.Some? then Call(func.value, PrintMetric(m)) else PrintMetric(m)
  }

  /** Cut at any parenthesis but its last, an operand is refused. */
  lemma OperandCutFails(reg: Registry, agg: Aggregation, groups: seq<string>, explicit: bool,
                        func: Option<Aggregation>, m: Metric, i: nat)
    requires PlainMetric(m) && NoBracketFields(m)
    requires var p := OperandText(func, m); i < |p| - 1 && p[i] == ')'
    ensures WithInner(reg, agg, groups, explicit, Stripped(Trim(OperandText(func, m)[..i]))).Err?
  {
    hide PlainMetric, NoBracketFields, PrintMetric, Torn, WithInner, Stripped, Trim, KeywordText;
    var p, text := OperandText(func, m), PrintMetric(m);
    if func.None? {
      MetricTorn(m, i);
      MetricTextFails(reg, agg, groups, explicit, p[..i], m.name);
    } else {
      var start := CallStart(func.value);
      assert p == start + (text + ")");
      CallStartNoClose(func.value);
      assert forall k | 0 <= k < |start| :: p[k] == start[k] && p[k] in start;
      var j := i - |start|;
      assert 0 <= j < |text| && text[j] == p[i];
      MetricTorn(m, j);
      CallTextFails(reg, agg, groups, explicit, func.value, text[..j], m.name);
      assert p[..i] == start + text[..j];
    }
  }

  lemma CallStartNoClose(func: Aggregation)
    ensures ')' !in CallStart(func)
  {
    KeywordIsPlain(func);
    IdentIsPlain(KeywordText(func));
  }

  // ----- Unbalanced operands -----

  /** What is found behind the parenthesis of an operand that is not balanced. */
  ghost predicate CutInside(p: string, suffix: string, cut: Option<(string, string)>, i: nat) {
    cut.Some? ==> i < |p| && p[i] == ')' && cut.value == (Trim(p[..i]), Trim(p[i + 1..] + ")" + suffix))
  }

  lemma UnbalancedCut(p: string, suffix: string) returns (i: nat)
    requires !Balanced(p) && Balanced(suffix)
    ensures CutInside(p, suffix, Parenthesized("(" + p + ")" + suffix), i)
  {
    var rest := p + ")" + suffix;
    assert "(" + p + ")" + suffix == "(" + rest && ("(" + rest)[1..] == rest;
    ClosesInside(p, suffix);
    hide CloseFrom, Balanced, Trim;
    i := 0;
    if CloseFrom(1, rest).Some? {
      i := CloseFrom(1, rest).value;
      assert rest[..i] == p[..i] && rest[i + 1..] == p[i + 1..] + ")" + suffix;
    }
  }

  /** The query is refused in what follows an operand, or in the operand. */
  ghost predicate Refused(reg: Registry, r: ParseResult<Option<AggregationExpr>>) {
    r.Ok? ==>
      && r.value.Some?
      && var x := r.value.value;
         WithInner(reg, x.aggregation, x.groupBy, x.explicitGrouping, Stripped(x.inner)).Err?
  }

  lemma CloseIsNoSuffix(suffix: string)
    ensures var after := TrimStart(Trim([] + ")" + suffix)); after != [] && !StartsGrouping(after)
  {
    var s := [] + ")" + suffix;
    assert s[0] == ')' && TrimStart(s) == s;
    EndKeeps(s, ')');
    assert TrimEnd(s)[0] == ')';
  }

  lemma SuffixRefused(reg: Registry, agg: Aggregation, func: Option<Aggregation>, m: Metric, suffix: string)
    requires PlainMetric(m) && NoBracketFields(m) && Balanced(suffix) && !Balanced(OperandText(func, m))
    ensures Refused(reg, SuffixGrouped(reg, agg, "(" + OperandText(func, m) + ")" + suffix))
  {
    var p := OperandText(func, m);
    var raw := "(" + p + ")" + suffix;
    hide OperandText, PlainMetric, NoBracketFields, Balanced, Parenthesized, WithInner, Stripped, GroupingClause,
      StartsGrouping, Trim, TrimStart, GroupBy;
    var i := UnbalancedCut(p, suffix);
    var r := SuffixGrouped(reg, agg, raw);
    if r.Ok? {
      assert Parenthesized(raw).Some?;
      if i == |p| - 1 {
        assert p[i + 1..] == [];
        CloseIsNoSuffix(suffix);
        assert false;
      }
      var x := r.value.value;
      OperandCutFails(reg, x.aggregation, x.groupBy, x.explicitGrouping, func, m, i);
    }
  }

  lemma PrefixRefused(reg: Registry, agg: Aggregation, func: Option<Aggregation>, m: Metric,
                      clause: (bool, seq<string>, string))
    requires PlainMetric(m) && NoBracketFields(m) && !Balanced(OperandText(func, m))
    requires TrimStart(clause.2) == "(" + OperandText(func, m) + ")"
    ensures Refused(reg, PrefixGrouped(reg, agg, clause))
  {
    var p := OperandText(func, m);
    var raw := "(" + p + ")";
    NoParensIsBalanced([]);
    assert raw == raw + [];
    hide OperandText, PlainMetric, NoBracketFields, Balanced, Parenthesized, WithInner, Stripped, StartsGrouping, Trim,
      TrimStart, GroupBy;
    var i := UnbalancedCut(p, []);
    var r := PrefixGrouped(reg, agg, clause);
    if r.Ok? {
      assert Parenthesized(raw).Some?;
      if i == |p| - 1 {
        assert p[i + 1..] == [];
        CloseIsNoSuffix([]);
        assert false;
      }
      var x := r.value.value;
      OperandCutFails(reg, x.aggregation, x.groupBy, x.explicitGrouping, func, m, i);
    }
  }

  lemma CallRefused(reg: Registry, agg: Aggregation, func: Option<Aggregation>, m: Metric)
    requires agg != Rate && PlainMetric(m) && NoBracketFields(m) && !Balanced(OperandText(func, m))
    ensures Refused(reg, AggregationOf(reg, Call(agg, OperandText(func, m))))
  {
    hide OperandText, PlainMetric, NoBracketFields, Balanced, AggregationOf, SuffixGrouped, Refused, KeywordText;
    var p := OperandText(func, m);
    var rest := "(" + p + ")";
    NoParensIsBalanced([]);
    assert Call(agg, p) == KeywordText(agg) + rest && rest == rest + [];
    KeywordSplits(reg, agg, rest);
    assert TrimStart(rest) == rest;
    NoGroupingYet(rest);
    SuffixRefused(reg, agg, func, m, []);
  }

  lemma AfterRefused(reg: Registry, agg: Aggregation, without: bool, labels: seq<string>, func: Option<Aggregation>,
                     m: Metric)
    requires agg != Rate && PlainLabels(labels) && PlainMetric(m) && NoBracketFields(m)
    requires !Balanced(OperandText(func, m))
    ensures Refused(reg, AggregationOf(reg, PrintGrouped(agg, PrintClause(Word(without), labels), AfterOperand,
                                                         OperandText(func, m))))
  {
    hide OperandText, PlainMetric, NoBracketFields, PlainLabels, Balanced, AggregationOf, SuffixGrouped, Refused,
      KeywordText, PrintClause;
    var p, clause := OperandText(func, m), PrintClause(Word(without), labels);
    var rest := "(" + p + ")" + (" " + clause);
    assert PrintGrouped(agg, clause, AfterOperand, p) == KeywordText(agg) + rest;
    KeywordSplits(reg, agg, rest);
    assert TrimStart(rest) == rest;
    NoGroupingYet(rest);
    ClauseBalanced(without, labels);
    SuffixRefused(reg, agg, func, m, " " + clause);
  }

  lemma BeforeRefused(reg: Registry, agg: Aggregation, without: bool, labels: seq<string>, func: Option<Aggregation>,
                      m: Metric)
    requires agg != Rate && PlainLabels(labels) && PlainMetric(m) && NoBracketFields(m)
    requires !Balanced(OperandText(func, m))
    ensures Refused(reg, AggregationOf(reg, PrintGrouped(agg, PrintClause(Word(without), labels), BeforeOperand,
                                                         OperandText(func, m))))
  {
    hide OperandText, PlainMetric, NoBracketFields, PlainLabels, Balanced, AggregationOf, PrefixGrouped, Refused,
      KeywordText, PrintClause, ResolveFrom, GroupingClause, StartsGrouping;
    var p, clause := OperandText(func, m), PrintClause(Word(without), labels);
    var tail := " (" + p + ")";
    assert PrintGrouped(agg, clause, BeforeOperand, p) == KeywordText(agg) + (" " + (clause + tail));
    KeywordSplits(reg, agg, " " + (clause + tail));
    ClauseTrimmed(without, labels, tail);
    ClauseParses(reg, without, labels, tail);
    SpaceTrimmed(p);
    var names := ResolveFrom(reg, [], labels);
    if names.Ok? {
      PrefixRefused(reg, agg, func, m, (without, names.value, tail));
    } else {
      ErrIsRefused(reg, names.reason);
    }
  }

  lemma ErrIsRefused(reg: Registry, reason: string)
    ensures Refused(reg, Err(reason))
  {
  }

  lemma CountedRefused(reg: Registry, e: PromExpr)
    requires Formed(e) && NoBracketFields(e.metric) && Counted(e).Some? && !Balanced(Counted(e).value)
    ensures Refused(reg, AggregationOf(reg, Print(e)))
  {
    hide PlainMetric, PlainLabels, NoBracketFields, Balanced, Refused, AggregationOf, PrintMetric, Call, PrintGrouped,
      PrintClause;
    if e.outer.Some? {
      assert PrintOperand(e) == OperandText(e.func, e.metric);
      match e.grouping
      case Ungrouped => CallRefused(reg, e.outer.value, e.func, e.metric);
      case By(labels) =>
        if e.placement == BeforeOperand { BeforeRefused(reg, e.outer.value, false, labels, e.func, e.metric); }
        else { AfterRefused(reg, e.outer.value, false, labels, e.func, e.metric); }
      case Without(labels) =>
        if e.placement == BeforeOperand { BeforeRefused(reg, e.outer.value, true, labels, e.func, e.metric); }
        else { AfterRefused(reg, e.outer.value, true, labels, e.func, e.metric); }
    } else {
      CallRefused(reg, e.func.value, None, e.metric);
    }
  }

  // ----- The exact condition -----

  lemma WrappedFails(reg: Registry, raw: string, layers: nat, s: string)
    requires layers > 0 && Stripped(Trim(raw)) == Wrapped(layers, s)
    ensures PromQueryOf(reg, raw).Err?
  {
    hide Stripped, Trim, Wrapped;
    WrappedIs(layers, s);
    var query, inner := Wrapped(layers, s), Wrapped(layers - 1, s);
    assert query == "" + "(" + (inner + ")");
    FindAfter("", "(", inner + ")");
    TrimIdentity("");
    assert query[..0] == "" && query[|query| - 1] == ')';
    hide Find, WithInner;
  }

  lemma WrappedIs(layers: nat, s: string)
    requires layers > 0
    ensures Wrapped(layers, s) == "(" + Wrapped(layers - 1, s) + ")"
  {
  }

  /** A query of the supported forms that is not readable is an error. */
  lemma UnreadableIsRefused(reg: Registry, e: PromExpr, layers: nat)
    requires Formed(e) && NoBracketFields(e.metric) && !Readable(e, layers)
    ensures PromQueryOf(reg, Wrapped(layers, Print(e))).Err?
  {
    hide PlainMetric, PlainLabels, NoBracketFields, Balanced, Print, Counted, PrintOperand, PrintMetric, Wrapped,
      Stripped, Trim, AggregationOf, WithInner, UnwrapFunc, ReadsAsMetric;
    var t, raw := Print(e), Wrapped(layers, Print(e));
    PrintStands(e);
    WrappedStays(layers, t);
    if layers > 0 && !Balanced(t) {
      var k := StripKeepsOne(layers, t);
      WrappedFails(reg, raw, k, t);
    } else {
      if layers > 0 {
        WrappingIsRedundant(layers, t);
        SameStripped(reg, raw, t);
      } else {
        NoLayers(t);
      }
      StandingStays(t);
      if Counted(e).Some? && !Balanced(Counted(e).value) {
        CountedRefused(reg, e);
      } else {
        LoneIsMetric(e);
        AggregationNameIsRefused(reg, e.metric);
      }
    }
  }

  lemma LoneIsMetric(e: PromExpr)
    requires e.outer.None? && e.func.None?
    ensures Print(e) == PrintMetric(e.metric)
  {
  }

  lemma WrappedStays(layers: nat, s: string)
    requires Standing(s)
    ensures Trim(Wrapped(layers, s)) == Wrapped(layers, s)
  {
    TrimIdentity(Wrapped(layers, s));
  }

  /**
   A printed query with a meaning is parsed to it exactly if a lone metric in it does not read
   as an aggregation, and parentheses, quoted or not, are balanced in the operand of its
   outermost aggregation and, if it is wrapped, in the whole of it.
   */
  lemma PrintedMeansExactlyWhen(reg: Registry, e: PromExpr, layers: nat)
    requires Formed(e) && NoBracketFields(e.metric) && Meaning(reg, e).Ok?
    ensures PromQueryOf(reg, Wrapped(layers, Print(e))) == Meaning(reg, e) <==> Readable(e, layers)
  {
    hide Formed, NoBracketFields, Readable, Print, Wrapped, PromQueryOf, Meaning;
    if Readable(e, layers) {
      PrintedMeans(reg, e, layers);
    } else {
      UnreadableIsRefused(reg, e, layers);
    }
  }
}
