# Verified model of canardstack

canardstack is a query server over DuckLake. This project models the parts of it that carry a
protocol, state or parsing, and proves what they promise. Each module follows one source file or
component:

- `Relay`, `RelayOutcomes`, `RelayDelivery`: the two-way byte relay behind TLS termination. Sockets are scripts of
  read, write and flush outcomes, so every statement is about every pair of peers.
- `Admission`, `QueryTimer`: two concurrency protocols, as steps of threads over shared state in
  any interleaving, with wake-ups that may be late, shared or spurious.
- `Labels`, `Selector`, `Normalize`, `LogQuery`, `Parens`, `PromQL`, `PromQLNames`,
  `PromQLRoundTrip`, `PromQLResults`, `PromQLBalance`: the query compiler's front end, on strings.
- `SqlText`, `SqlPrefix`, `SqlCondition`, `SqlLowering`, `SqlMeaning`, `SqlWhere`, `SqlLike`,
  `SqlSearch`, `SqlExprs`, `LogPath`, `SqlSurvival`: its back end. The WHERE text is built as the
  source builds it, then read back by a lexer and a precedence parser that know nothing of how it
  was built, and evaluated in three-valued logic.
- `DiscoveryCache`, `CacheCoherence`, `CacheHistory`, `DiscoveryQueries`, `DiscoveryMeaning`: the
  discovery cache as a data structure, as a cache shared by threads, and the statements whose
  answers it keeps, read back like the WHERE text.
- `Metrics`: counters and gauges in 16 shards.
- `Http`, `HttpStream`, `HttpStandard`: the connection loop over bytes that arrive in arbitrary
  pieces, and beside what RFC 9112 asks of it.
- `Streams`: truncation of result pages and grouping of rows into streams.
- `BasicTypes`, `Text`: options, results and bytes, and string operations of the standard library.

Loops and objects that the source changes in place are methods and classes here, each proved
equal to a specification function; the lemmas are about those functions. I/O outcomes, clock
reads, thread schedules, regular expression matching and calendar formatting are parameters.

Some promises do not hold for all inputs. For these the model keeps the code as it is and the
lemmas say exactly when they hold:

- The relay loop ends between well-behaved sockets exactly if each destination takes the whole
  stream before it reports that it closed. A peer-closed error on a write marks the other
  direction's input as ended but leaves the pending bytes, so the loop condition at
  `src/tls.rs:263` stays out of reach (`RelayDelivery.BreaksExactlyWhenDeliverable`, with an example in
  `RelayDelivery.RefusedByteKeepsLoopRunning`).
- The two capacities add up to the configured concurrency exactly if it is at least two
  (`Admission.CapacitiesSplitConcurrency`).
- A query timer that has given up while the closure still runs did so without interrupting it
  exactly if its wait, which is not in a loop, ended spuriously
  (`QueryTimer.UninterruptedExactlyWhen`, with a run in `QueryTimer.SpuriousRunExists`).
- The two label lookups agree on every string exactly if no alias shadows a later canonical name
  (`Labels.LookupsAgreeExactlyWhen`).
- A matcher printed with a quoted value is parsed back exactly if the value has no quotes at its
  ends and no operator that is tried before its own (`Selector.PrintedParsesExactlyWhen`).
- The filter operators are searched for inside quoted label values as well: a log query is parsed
  to its matchers and filter exactly if no label value has a pipe operator, and is refused else
  (`LogQuery.PipelineRoundTrip`, `LogQuery.PipedValueFails`).
- An operator of a text search that is not in capitals is not cut, but an `or` still makes the
  search a disjunction: the whole text is then one term (`SqlSearch.UncapitalizedOrIsNotCut`).
- A text search finds exactly the bodies that contain the term if and only if the term has no `%`
  or `_`, which are not escaped (`SqlLike.SearchIsContainmentExactlyWhen`).
- Time bounds are written in milliseconds, so they are exact if and only if both are whole
  milliseconds or the interval is empty (`SqlWhere.BoundsExactlyWhen`).
- The replacement of `{prefix}` reaches into literals: a condition survives it exactly if no label
  value, pattern, search term, written time or used label expression contains that text
  (`SqlSurvival.ConditionSurvivesExactlyWhen`; `SqlSurvival.PrefixValueIsReplaced` has a query).
- A lone metric called like an aggregation other than `rate` is refused as soon as it has braces or
  a range, and only then (`PromQLResults.LoneMetricExactlyWhen`).
- Parentheses in label values are counted like any others: a printed query is parsed to its meaning
  exactly if they are balanced in the operand of its outermost aggregation, should it have one, and
  in the whole query, should it be wrapped; else it is refused
  (`PromQLBalance.PrintedMeansExactlyWhen`).
- Transfer encodings are ignored, of several content lengths the last one counts, and a list of equal
  lengths is refused, where section 6.3 of RFC 9112 lets an encoding override the length and takes
  such a list for its number. The framing is that of the standard exactly under the condition of
  `HttpStandard.FramingAgreesExactlyWhen`. `HttpStandard.ChunkedBodyIsReadAsRequest` has a request
  whose chunks are read as a second request, and `HttpStandard.ListedLengthIsUnreadable` is about
  the list, which section 8.6 of RFC 9110 allows to be refused.
- A close option is seen only as the whole of the last connection header, and the version of a
  request is not looked at. The connection is kept or ended as section 9.3 of RFC 9112 says exactly
  under the condition of `HttpStandard.PersistenceAgreesExactlyWhen`;
  `HttpStandard.ListedCloseIsIgnored` has a request with a close option after which the next one
  is answered.

`dafny verify dfyconfig.toml` checks everything.

## Model

| member | source | states |
|---|---|---|
| Relay.EveryByteAccountedFor | src/tls.rs:202-261 | in every reachable state, whatever errors occur, each direction has read a prefix of its source's stream and split it exactly into delivered and unwritten bytes, and is half-closed only when its source ended and its buffer is drained |
| Relay.HalfCloseIsFinal | src/tls.rs:217-261 | between any two moments of a run a direction only extends what it read and delivered, and after its half-close no byte and no write follows |
| RelayOutcomes.MoveByOutcomes | src/tls.rs:202-231 | in terms of the raw socket outcomes: a direction reads only with nothing pending and its source not ended, delivers exactly the smaller of what a write took and what it was offered, ends its source, hits and half-closes exactly on the outcomes that call for it |
| RelayOutcomes.MoveFailsByOutcome | src/tls.rs:202-259 | a direction fails exactly on a read, write or flush error that is neither retried nor of a peer that is gone |
| RelayOutcomes.OutcomesDecide | src/tls.rs:202-283 | in every run a source is marked ended if and only if one of its reads gave nothing or found the peer gone, or a write to that peer did; the relay has failed with an error if and only if some read, write, or flush after a write answered with it and it is neither of these nor to be retried |
| RelayDelivery.Finishes | src/tls.rs:202-269 | two directions that can finish do reach the break, by a lexicographic measure on unread bytes, pending bytes and remaining stalls |
| RelayDelivery.NeverFinishes | src/tls.rs:217-265 | once a direction is stuck on a closed destination the loop runs on at every later pass |
| RelayDelivery.BreaksExactlyWhenDeliverable | src/tls.rs:202-269 | for well-behaved sockets the loop breaks if and only if in each direction the destination takes the whole stream before reporting itself closed; otherwise it runs forever |
| RelayDelivery.OpenDestinationTakesAll | src/tls.rs:217-227 | a destination that never reports itself closed takes every stream |
| RelayDelivery.FullDelivery | src/tls.rs:228-270 | when the loop breaks, both streams are entirely at the other side and both half-closes are done |
| RelayDelivery.OpenSocketsComplete | src/tls.rs:202-270 | between well-behaved sockets that never report themselves closed the relay ends with full delivery both ways |
| RelayDelivery.RefusedByteKeepsLoopRunning | src/tls.rs:224-265 | one byte for a backend that ended and refuses writes keeps the loop running at every pass |
| Relay.Pending.Set | src/tls.rs:308-312 | the buffer holds exactly the new bytes, none consumed |
| Relay.Pending.Advance | src/tls.rs:316-322 | exactly the first n unwritten bytes are gone |
| Relay.Socket.Read | src/tls.rs:332-340 | the outcome is classified as end, data, blocked or error, and only data is received |
| Relay.Socket.Write | src/tls.rs:348-355 | exactly the accepted prefix is delivered |
| Relay.ReadSide | src/tls.rs:205-216 | reading into an empty buffer refines the read phase of a direction |
| Relay.WriteSide | src/tls.rs:217-227 | writing what is pending refines the write phase, including the peer-closed case and the flush of the TLS side |
| Relay.CloseSide | src/tls.rs:228-231 | the half-close refines the close phase |
| Relay.OnePass | src/tls.rs:205-265 | one iteration over the two sockets and buffers is one pass of the model |
| Relay.ProxyConnection | src/tls.rs:186-271 | the loop over mutable flags and buffers refines the run of the model, byte for byte |
| Admission.CapacitiesSplitConcurrency | src/admission_control.rs:54-71 | both classes get a slot; the capacities sum to the concurrency if and only if it is at least two; under the checks of src/config.rs:330-339 they are the configured ones |
| Admission.ActiveIsLiveGuards | src/admission_control.rs:98-139 | over all interleavings each class's active count is its number of live guards and within capacity |
| Admission.RunningNeverExceedsConcurrency | src/admission_control.rs:54-139 | for a concurrency of at least two never more queries run than configured |
| Admission.RejectedOnlyWhenFull | src/admission_control.rs:98-120 | a reservation is refused only while live guards hold every slot of its class, and unless no wait was asked for only past its deadline; it is granted exactly when a slot is free, even after the deadline |
| Admission.ThreadsKeepTheirRequest | src/admission_control.rs:92-124 | in every run each thread waits for, or holds, the class it asked for on arrival, and waits until its own start plus its own wait |
| Admission.LookDecidedByArrival | src/admission_control.rs:98-139 | every look of a reservation is decided by its arrival: admitted if and only if its class has a free slot, rejected if and only if the class is full and no wait was asked for or start plus wait has come, else it waits on; nothing else changes |
| Admission.DropFreesOneSlot | src/admission_control.rs:206-219 | the saturating decrement never saturates: a drop frees exactly one slot of its own class |
| Admission.CountersMatchHistory | src/admission_control.rs:127-155 | the rejection counter is the number of rejections, and each active count the admissions minus drops, of the whole run |
| Admission.AdmissionController.TryReserveLocked | src/admission_control.rs:127-139 | succeeds exactly below capacity, adds one to its own class, leaves the other |
| Admission.AdmissionController.RejectLocked | src/admission_control.rs:141-155 | counts one rejection |
| Admission.AdmissionController.Release | src/admission_control.rs:206-219 | takes one from its own class, leaves the other |
| Admission.AdmissionController.ReserveWithWait | src/admission_control.rs:92-125 | the wait loop ends under a clock that advances, and its last look under the lock alone decides between the slot and one more rejection |
| QueryTimer.InvHolds | src/storage/query_conn.rs:31-64 | the invariant of lock, flag, timer and query thread in every interleaving |
| QueryTimer.InterruptIsSafe | src/storage/query_conn.rs:40-51 | interrupt fires at most once, only while the flag is unset under the lock, never after the call returned |
| QueryTimer.NeverTooSoon | src/storage/query_conn.rs:34-43 | in every run an interrupt comes only after the timer has waited for at least the timeout |
| QueryTimer.TimeoutIffInterrupted | src/storage/query_conn.rs:48-64 | the call returns the timeout error if and only if the connection was interrupted, else the closure's own result |
| QueryTimer.FiringMatchesSchedule | src/storage/query_conn.rs:40-45 | in every run the timer's program point is the one its schedule calls for: it goes on to fire exactly if its wait ended late and it had the lock back before the flag was set |
| QueryTimer.TimesOutExactlyWhen | src/storage/query_conn.rs:34-64 | a returned call timed out if and only if, in the schedule, the wait ended past its limit and the timer had the lock back before the query thread set the flag |
| QueryTimer.OverlongIsInterrupted | src/storage/query_conn.rs:40-46 | in a run without spurious wake-ups a closure still running when the timer exits has been interrupted, once |
| QueryTimer.SpuriousWakeupDisarms | src/storage/query_conn.rs:40-46 | in every run with a spurious wake-up nothing is ever interrupted |
| QueryTimer.UninterruptedExactlyWhen | src/storage/query_conn.rs:40-46 | a timer that exited while the closure still runs has not interrupted it if and only if its wait ended spuriously |
| QueryTimer.OverlongTimerProceeds | src/storage/query_conn.rs:31-46 | while the closure runs on past the limit the timer always has a step of its own to take, without notification or spurious wake-up, until it exits |
| QueryTimer.SpuriousRunExists | src/storage/query_conn.rs:40-46 | a run in which the timer has given up while the closure still runs |
| QueryTimer.TimeoutRunExists | src/storage/query_conn.rs:34-64 | for every limit a run in which the timer waits it out, interrupts the closure once and the call returns the time-out |
| QueryTimer.JoinCompletes | src/storage/query_conn.rs:48-59 | every step but time passing brings the return closer, and after the closure one is always enabled without waiting for the limit: the join completes, no notification is lost |
| Labels.AliasPairs | src/semantic_labels.rs:70-82 | the loop yields the canonical name and then the aliases of each label of the scope, in table order |
| Labels.FirstMatchIsFirstDef | src/semantic_labels.rs:70-82 | the first pair for a name is that of the first definition answering to it |
| Labels.AgreeOn | src/semantic_labels.rs:84-93 | on one name the two lookups differ exactly if it is a canonical name that an earlier definition answers to by alias |
| Labels.LookupsAgreeExactlyWhen | src/semantic_labels.rs:70-93 | the two lookups agree on every string if and only if no alias shadows a later canonical name |
| Labels.UnambiguousLookupsAgree | src/semantic_labels.rs:70-93 | on an unambiguous registry they agree and canonical names resolve to themselves |
| Labels.ResolvedHasExpr | src/semantic_labels.rs:61-68 | every name either lookup resolves has an expression |
| Labels.ExprIsFirstSource | src/semantic_labels.rs:48-68 | the expression of a label is the first source of the scope in the first definition of the name that has one; there is none if and only if no definition has |
| Labels.ScopeLabelsAreDefs | src/semantic_labels.rs:178-184 | the grouping labels are exactly the canonical names defined in the scope |
| Labels.ReaderAlignedExactlyWhen | src/query/mod.rs:178-226 | the reader's column positions fit the select list if and only if every group label has an expression |
| Selector.SplitLabelMatchers | src/query/plan.rs:280-309 | the loop over quote and escape flags computes the split function |
| Selector.SplitIsExact | src/query/plan.rs:280-309 | splitting succeeds if and only if the quote automaton ends outside a quote; the pieces joined by commas are the text, and every cut and only the cuts are commas outside quotes |
| Selector.EscapedIsNeverCut | src/query/plan.rs:286-296 | any value, escaped and in quotes, is never cut and its quote is closed |
| Selector.BackslashOpensNothing | src/query/plan.rs:289-292 | outside quotes a backslash escapes nothing |
| Selector.ParseLabelMatchers | src/query/plan.rs:249-278 | the parsing loop computes the parse function, blank pieces skipped and the first error returned |
| Selector.NoEarlierOperator | src/query/plan.rs:256-263 | nothing in a printed matcher can be taken for an operator tried before its own |
| Selector.UnquoteQuoted | src/query/plan.rs:241-243 | a quoted text is unquoted to itself if and only if it has no quotes at its ends |
| Selector.PrintedParses | src/query/plan.rs:252-276 | a printed matcher is parsed back to itself |
| Selector.PrintedParsesExactlyWhen | src/query/plan.rs:256-276 | whatever its value contains, a printed matcher is parsed back if and only if the value has no quotes at its ends and no operator tried before its own |
| Selector.PrintedLabelsParse | src/query/plan.rs:249-278 | printed matchers joined by commas are parsed back to the list |
| Selector.SelectorRoundTrip | src/query/plan.rs:177-203 | a printed selector is parsed back to its name and matchers |
| Selector.BareSelectorExactlyWhen | src/query/plan.rs:177-203 | a text without a brace is a selector exactly if it is nonempty and made of the listed identifier characters, and it then names the metric |
| Normalize.NormalizeMatchers | src/query/plan.rs:205-239 | the loop computes the normalization function |
| Normalize.NormalizesExactlyWhen | src/query/plan.rs:205-239 | succeeds if and only if every label is supported and no two equality matchers of one canonical label differ in value; keeps length, order, operators and values and makes every field canonical; each error has its own cause |
| Normalize.NormalizedAgree | src/query/plan.rs:219-231 | in the result equality matchers of one field ask for one value |
| Normalize.AcceptedInAnyOrder | src/query/plan.rs:205-239 | acceptance does not depend on the order of the matchers |
| Normalize.NormalizingIsIdempotent | src/query/plan.rs:205-239 | normalizing the result again changes nothing if canonical names resolve to themselves |
| Normalize.UnambiguousIsFixed | src/semantic_labels.rs:70-82 | they do on an unambiguous registry |
| LogQuery.PipelineRoundTrip | src/query/log.rs:31-50 | a printed pipeline gives back selector and filter if and only if the selector has no pipe operator, quoted or not, and the term has no quotes at its ends |
| LogQuery.PipedValueFails | src/query/log.rs:31-50 | a pipe operator in a label value cuts the query inside the quotes, and the query is refused whatever follows |
| LogQuery.LogQueryRoundTrip | src/query/log.rs:8-29 | a printed log query is refused if a label value has a pipe operator, and else parsed to its normalized matchers and its filter, or to the normalization error |
| Parens.ParenthesizedWithSuffix | src/query/prometheus.rs:186-202 | the depth counter loop computes the partner function |
| Parens.ParenthesizedExactlyWhen | src/query/prometheus.rs:186-202 | a text is cut if and only if it is a parenthesized balanced text with a suffix, and then there and nowhere else |
| Parens.StripOuterParens | src/query/prometheus.rs:214-226 | the loop terminates and computes the strip function |
| Parens.StrippingIsIdempotent | src/query/prometheus.rs:214-226 | the result has no outer parentheses, and stripping it again changes nothing |
| Parens.WrappingIsRedundant | src/query/prometheus.rs:214-226 | any number of parentheses around a balanced text makes no difference |
| PromQL.ParseLabelList | src/query/prometheus.rs:161-174 | the loop computes the label list function and the rest of the text |
| PromQL.DottedNameResolves | src/query/prometheus.rs:267-299 | a name of the dotted families loses `_total`, then at most one unit, exactly if it has them, and its underscores |
| PromQLNames.NameIsMeant | src/query/prometheus.rs:254-300 | every written name is resolved to the one meant: the three renamed metrics, the families with underscores or dots, any other unchanged |
| PromQLNames.SignalIsMeant | src/query/prometheus.rs:242-250 | a metric is read from the sums if and only if it is a rate, its written name ends in `_total`, or its stored name ends in `.sum` |
| PromQL.ParseAggregation | src/query/prometheus.rs:78-140 | the method with its mutable flags computes the aggregation function |
| PromQL.ParsePromQuery | src/query/prometheus.rs:17-69 | the method with its mutable query, aggregation and grouping computes the query function |
| PromQLRoundTrip.BeforeParses | src/query/prometheus.rs:86-108 | a grouping before the operand is parsed to the meant groups |
| PromQLRoundTrip.AfterParses | src/query/prometheus.rs:102-122 | a grouping after the operand is parsed to the same |
| PromQLRoundTrip.OperandMeaning | src/query/prometheus.rs:33-68 | a printed operand with or without an inner function is parsed to its metric, with the function's aggregation if there is one |
| PromQLRoundTrip.AssembledIsSelected | src/query/prometheus.rs:57-60 | resolving parsed groups a second time changes nothing and never fails |
| PromQLRoundTrip.PrintedMeans | src/query/prometheus.rs:17-69 | every query of the supported subset, in every form and with any number of outer parentheses, is parsed to its meaning, parentheses being balanced only where they are counted; stored name and table are those meant by the written name |
| PromQLResults.MeaningExactlyWhen | src/query/prometheus.rs:17-69 | a query has a meaning if and only if its grouping labels are known, the metric is named before or inside its braces, and its other labels are supported and agree; it then asks for the metric, table, aggregation, matchers and groups as written |
| PromQLResults.ListResolvesExactlyWhen | src/query/prometheus.rs:167-172 | a label list resolves if and only if every label is known, to the canonical names without repetition in the order they first come in |
| PromQLResults.ParsedGroupsAreRead | src/query/prometheus.rs:57-60 | whatever text is parsed, every group label has a column and the reader reads the right one |
| PromQLResults.PlacementDoesNotMatter | src/query/prometheus.rs:90-122 | grouping before and after the operand give the same query |
| PromQLResults.WithoutIsComplement | src/query/prometheus.rs:124-132 | `without` of a list groups by exactly the metric labels that `by` of the list does not |
| PromQLResults.InnerOverridesOuter | src/query/prometheus.rs:23-36 | the inner function decides the aggregation |
| PromQLResults.NameLabelNamesMetric | src/query/prometheus.rs:40-52 | a `__name__` matcher anywhere among the matchers names the metric as the text before the braces does |
| PromQLResults.LoneMetricExactlyWhen | src/query/prometheus.rs:17-103 | a lone metric with a meaning is parsed to it if and only if its name is no aggregation other than `rate`, or it has neither braces nor range |
| PromQLResults.AggregationNameIsRefused | src/query/prometheus.rs:78-103 | a lone metric with braces or a range that is called like an aggregation other than `rate` is an error |
| PromQLBalance.PrintedMeansExactlyWhen | src/query/prometheus.rs:17-69 | a printed query with a meaning is parsed to it if and only if a lone metric reads as a metric, the operand of the outermost aggregation is balanced, quoted parentheses included, and so is the whole query if it is wrapped |
| PromQLBalance.UnreadableIsRefused | src/query/prometheus.rs:78-202 | any other is an error: cut at a quoted parenthesis, the operand ends inside a quote and is refused |
| SqlText.QuoteLexes | src/db/sql.rs:5-11 | whatever a value contains, its quoted text is one literal token with that value, before any text that does not start with a quote |
| SqlText.LexConcat | src/db/sql.rs:5-11 | a closed text followed by another lexes to the tokens of both |
| SqlPrefix.UnchangedExactlyWhen | src/query/mod.rs:69 | a replacement changes a text if and only if it has an occurrence and the replacement differs from it |
| SqlPrefix.LiteralSurvives | src/query/mod.rs:69 | a quoted literal survives the replacement if and only if its value has no `{prefix}` |
| SqlPrefix.TextSurvivesExactlyWhen | src/query/mod.rs:69 | a text without braces outside its literals survives it if and only if no literal contains `{prefix}` |
| SqlExprs.ExprClosed | src/db/sql.rs:25-93 | every expression a label can be read from lexes completely, with balanced parentheses and no braces |
| SqlExprs.SourcesAreClosed | src/semantic_labels.rs:48-68 | so every registry built from such sources meets what lowering asks of it |
| SqlLowering.PushMatcher | src/query/mod.rs:325-354 | pushes the clauses of the matcher's operator, none or FALSE for `.*`, and fails exactly without an expression |
| Text.SplitAllIsExact | src/query/mod.rs:366-371 | splitting cuts at every operator as written and nowhere else |
| SqlLowering.TermsAreParts | src/query/mod.rs:371-373 | the terms are exactly the parts that are not blank, trimmed |
| SqlLowering.TextTerms | src/query/mod.rs:356-385 | the loop computes the text clause: its error, TRUE, or the joined group |
| SqlLowering.LogWhereSql | src/query/mod.rs:256-280 | the loops push the time predicate, then all matcher clauses, then all filter clauses, or return the first error |
| SqlMeaning.JoinedMeans | src/query/mod.rs:300-304 | clauses joined by AND, lexed and parsed with SQL's precedence, are the conjunction of their conditions |
| SqlMeaning.GroupMeans | src/query/mod.rs:380-384 | a parenthesized group joined by OR or AND is one condition to whatever surrounds it |
| SqlMeaning.MatcherMeans | src/query/mod.rs:338-352 | the text of each matcher clause is read as the condition it stands for |
| SqlWhere.MatcherPasses | src/query/mod.rs:338-352 | a row passes a matcher's clauses if and only if it satisfies the matcher with NULL read as the empty text; both `.*` shortcuts are sound |
| SqlWhere.MatchersLower | src/query/mod.rs:262-269 | lowering the matchers fails if and only if some label has no expression, and else keeps exactly the rows satisfying all |
| SqlWhere.SearchPasses | src/query/mod.rs:356-385 | a row passes a text search if and only if there is nothing to search for, or it has a body and some or all parts are found in it: some if the text says `or` between spaces in any case, the parts being cut at that operator in capitals |
| SqlSearch.JoinedTermsFind | src/query/mod.rs:366-384 | terms joined by OR find exactly the rows whose body has some term, joined by AND exactly those whose body has all |
| SqlSearch.UncapitalizedOrIsNotCut | src/query/mod.rs:366-371 | an `or` not in capitals makes a disjunction but cuts nothing: the whole text is one term |
| SqlWhere.FiltersLower | src/query/mod.rs:270-278 | lowering the filters fails if and only if a text search has a parenthesis |
| SqlWhere.LoweringPreservesMeaning | src/query/mod.rs:256-280 | the joined WHERE text is one condition, true of exactly the rows within the written bounds that satisfy every matcher and every text filter |
| SqlWhere.BoundsExactlyWhen | src/db/sql.rs:13-23 | the written bounds are the half-open interval asked for if and only if both are whole milliseconds or it is empty |
| SqlWhere.LiteralsDecideSurvival | src/query/mod.rs:69 | the condition survives the replacement of `{prefix}` if and only if no literal in it contains that text or it is replaced by itself |
| SqlSurvival.ConditionSurvivesExactlyWhen | src/query/mod.rs:69 | read off the plan before lowering: the condition survives the replacement if and only if no value, pattern, search term, written time or used label expression contains `{prefix}`, or it is replaced by itself |
| SqlSurvival.PrefixValueIsReplaced | src/query/mod.rs:69 | the text of a log query asking for the label value `{prefix}` is parsed and lowered, and its condition is then changed |
| SqlLike.SearchIsContainmentExactlyWhen | src/query/mod.rs:371-378 | searching a term finds exactly the bodies that contain it, case folded, if and only if it has no wildcard |
| LogPath.ParsedLabelsLower | src/query/log.rs:15-17 | whatever log query is parsed, lowering never meets a label without an expression |
| LogPath.QueryTextKeepsItsRows | src/query/log.rs:8-29 | from text to rows: a printed log query is parsed if and only if no label value has a pipe operator, and then keeps exactly the rows in bounds with the asked values under whatever alias, and its text filter |
| DiscoveryCache.RecencySorted | src/metadata.rs:411-420 | the reference list holds exactly the inserted keys, each once, by last insertion |
| DiscoveryCache.InsertTracks | src/metadata.rs:396-421 | one accepted insertion, with its eviction, keeps the map equal to the last 128 keys of the reference with their last values |
| DiscoveryCache.CachedExactlyWhen | src/metadata.rs:400-410 | a key is cached if and only if fewer than 128 distinct keys were inserted since its own last insertion |
| DiscoveryCache.DiscoveryCache.Get | src/metadata.rs:390-394 | returns exactly the last accepted value of a cached key, if its generation is the asked one |
| DiscoveryCache.DiscoveryCache.Oldest | src/metadata.rs:402-406 | the smallest sequence number belongs to the key inserted longest ago |
| DiscoveryCache.DiscoveryCache.Insert | src/metadata.rs:396-421 | an oversized value changes nothing; any other becomes the newest entry of the log the cache stands for |
| CacheCoherence.EveryHitIsFresh | src/metadata.rs:294-310 | in every interleaving a hit at generation g comes from a build, for a question with the same key, that started after g was reached |
| CacheCoherence.NoHitPredatesOlderBump | src/metadata.rs:294-310 | no hit is older than any generation reached before the one its request read |
| CacheHistory.RunIsTold | src/metadata.rs:294-310 | in every interleaving the time each generation was reached, the phase and question of each request and the answer under each key are the ones read off the list of steps alone |
| CacheHistory.ServedExactlyWhen | src/metadata.rs:294-310 | a look is served exactly if the last answer stored under its key was not evicted since and was stored under the generation the request read when it began; it is served that answer, and otherwise a build starts |
| CacheHistory.OnlyFinishedBuildsAreStored | src/metadata.rs:294-310 | an answer is stored only by a request whose own build finished just before |
| DiscoveryQueries.SameKeyTextSameSqlText | src/metadata.rs:587-589 | the key's and the query's time texts distinguish exactly the same times |
| DiscoveryQueries.EqualKeysEqualQueries | src/metadata.rs:346-363 | two windows have equal keys if and only if they have the same names and query times, and then the same time predicates |
| DiscoveryQueries.KeyDecidesStatements | src/metadata.rs:48-290 | questions with equal keys run the same statements, whole: windows, signals, quoted names and time predicates |
| DiscoveryQueries.HitAnswersItsQuestion | src/metadata.rs:48-310 | in every interleaving a hit was built by exactly the statements its own question would have run, in a build that started after the generation it read was reached |
| DiscoveryMeaning.SummaryKeepsAskedRows | src/metadata.rs:48-290 | the first statement of every question runs over the summary, and its condition, lexed, parsed and evaluated, is true of exactly the rows of the kind, signals and name the question asks for that were seen within its span |
| DiscoveryMeaning.SeenWithinIsOverlap | src/metadata.rs:575-581 | that is, for a span that is not empty, exactly the summaries whose own interval meets it |
| DiscoveryMeaning.RawValuesKeepRecordedRows | src/metadata.rs:475-519 | the raw values kept are those recorded within the span that are neither missing nor empty |
| DiscoveryMeaning.RawSeriesKeepRecordedRows | src/metadata.rs:521-585 | the raw series kept are those recorded within the span |
| Metrics.MergedLooksUp | src/metrics.rs:319-338 | an id is read back from its own shard only |
| Metrics.ShardsAreDisjoint | src/metrics.rs:208-216 | shard domains never overlap, so merging overwrites nothing |
| Metrics.ShardedRefinesFlat | src/metrics.rs:218-248 | after every sequence of operations every id is in the shard its hash selects and the merged shards equal one store that applied them all |
| Metrics.TornReadIsPerIdExact | src/metrics.rs:319-338 | a merge while others write gives each id its value at the moment its own shard was read |
| Metrics.ValidateMetricLabels | src/metrics.rs:368-387 | the two loops accept exactly the label lists whose keys are all allowed and occur at most once |
| Metrics.Utf8IsExact | src/metrics.rs:208-216 | the bytes that are hashed are UTF-8: they stand for the character's code point and no shorter sequence does |
| Metrics.NamesDiffer | src/metrics.rs:142-179 | no two metrics have one name |
| Metrics.ObservationNamesAreOwn | src/metrics.rs:142-179 | no metric shares its name with a rendered count or sum, and these are not shared either |
| Metrics.ObservationTotals | src/metrics.rs:236-248 | an observed metric's count and sum are those of its calls, in any interleaving |
| Metrics.CountersAndGaugesRead | src/metrics.rs:218-234 | in any interleaving a counter is the sum of its increments modulo its width and a gauge the last value it was set to |
| Metrics.Metrics.HashPartInto | src/metrics.rs:389-396 | the loop computes the hash of the bytes with its terminator, in 64-bit wrapping arithmetic |
| Metrics.Metrics.ShardFor | src/metrics.rs:208-216 | the hash of name and labels selects the shard |
| Metrics.Metrics.Inc | src/metrics.rs:218-224 | the sharded store changes as one flat store would |
| Metrics.Metrics.SetGaugeTo | src/metrics.rs:226-234 | likewise for gauges |
| Metrics.Metrics.ObserveSeconds | src/metrics.rs:236-248 | likewise for both parts of an observation |
| Metrics.Metrics.MergedShards | src/metrics.rs:319-338 | the loop over the shards returns the flat store |
| Http.HeadersWithinLimits | src/http/server.rs:195-214 | an accepted header block has fewer than 100 names and at most 64 KiB, and is a prefix of the stream |
| Http.ReadyWithinLimits | src/http/server.rs:193-250 | an accepted request keeps to the header and body limits |
| Http.RepliesKeepToLimits | src/http/server.rs:168-284 | on every byte stream there is one reply per request in order, all but the last keep the connection alive, the mark is set exactly when not asked to close and below the limit, and at most 10,000 requests are served |
| Http.HeaderLineParses | src/http/server.rs:207-213 | a header line is read back as its lower-case name and its value |
| Http.HeaderBlockRead | src/http/server.rs:195-214 | a written header block with fewer than 100 distinct names, however often each is repeated, and at most 64 KiB is read back to its map, consuming exactly its bytes |
| Http.RequestCutExactly | src/http/server.rs:170-250 | a request whose body is as long as the server's framing says is cut off exactly, whatever follows it, with or without a content length and wherever that stands |
| Http.ConcatenationCutExactly | src/http/server.rs:168-284 | a concatenation of requests framed as the server frames them is answered by exactly those requests with their bodies, in order |
| Http.HeadRead | src/http/server.rs:170-250 | the head of any separable request is read whole, and its content length alone then decides between a refusal, a failed read, and the cut of so many bytes |
| HttpStandard.StandardSessionExactlyWhen | src/http/server.rs:168-284 | a connection of requests that section 6.3 of RFC 9112 frames with a length is answered, and kept after each as section 9.3 says, if and only if, up to the last request answered, the last content length is a plain number and a close option is the whole last connection header, or there is none and the version allows to go on |
| HttpStandard.FramingAgreesExactlyWhen | src/http/server.rs:216-250 | the server's framing of a header list is that of section 6.3 of RFC 9112 if and only if there is no transfer encoding, and the content lengths are absent; or, lists included, one number, the last value being that number by itself and fitting a machine word; or not one number, and the last value unreadable |
| HttpStandard.WrittenLengthFrames | src/http/server.rs:216-224 | a content length anywhere in the header list, its name in any case, frames its body by the standard, and by the server if it fits a machine word |
| HttpStandard.ListedLengthIsUnreadable | src/http/server.rs:216-231 | a content length repeated as a list frames the body by the standard and is unreadable to the server |
| HttpStandard.EncodedBodyIsNotRead | src/http/server.rs:216-250 | without a content length nothing of an encoded body is read with its request |
| HttpStandard.ChunkedBodyIsReadAsRequest | src/http/server.rs:166-284 | the end of a chunked body is answered as a second request |
| HttpStandard.PersistenceAgreesExactlyWhen | src/http/server.rs:255-259 | the server keeps the connection as section 9.3 of RFC 9112 says if and only if a close option, should there be one, is the whole last connection header in any case, and, should there be none, the version is HTTP/1.1 or later, or HTTP/1.0 with a keep-alive option |
| HttpStandard.ListedCloseIsIgnored | src/http/server.rs:255-259 | after a request with a close option in a list the next request is answered |
| HttpStream.ReadBoundedLine | src/http/parser.rs:15-44 | for every split into chunks: too long if and only if the line exceeds the bound, else exactly the line, consumed |
| HttpStream.ReadExact | src/http/server.rs:247-250 | exactly n bytes across chunks, or failure if there are fewer |
| HttpStream.ReadHeaderBlock | src/http/server.rs:193-214 | the header loop over the buffered reader depends on the bytes only |
| HttpStream.NextRequest | src/http/server.rs:169-250 | so does reading one request |
| HttpStream.HandleStream | src/http/server.rs:166-284 | the connection loop gives the session of the bytes, however they arrive |
| HttpStream.SameBytesSameAnswers | src/http/server.rs:166-284 | two fragmentations of the same bytes get the same answers |
| HttpStream.FragmentedRequests | src/http/server.rs:166-284 | requests framed as the server frames them are answered one by one over any fragmentation |
| Streams.PageOfQuery | src/query/mod.rs:313-323 | fetching one row more than the limit tells exactly whether rows were left out, and keeps the first ones |
| Streams.PushGroups | src/compat/loki.rs:81-85 | one more row keeps the grouping |
| Streams.GroupRows | src/compat/loki.rs:56-93 | each label set has one stream with exactly its rows' entries in query order; the forward direction only turns the list of streams around |
| Streams.DistinctLabelSets | src/compat/loki.rs:81-85 | no two streams have the same label set |
| Streams.GroupingIsUnique | src/compat/loki.rs:56-90 | only one list of streams groups the rows |
| Streams.EveryRowInOneStream | src/compat/loki.rs:57-86 | the streams hold as many entries as there are rows |
| Streams.RowFindsItsStream | src/compat/loki.rs:57-85 | each row's entry is in the stream labelled with exactly the row's own non-empty label columns |

## Left out

- Relay.ProxyConnection: watches the loop for a given number of iterations, since it may run forever; the lemmas are about every number of iterations.
- Relay.Socket.FlushSpin: the retries of a blocked flush are one outcome; a flush that blocks forever is not modelled. A successful TLS write and flush counts as delivery.
- The progress flag and the idle sleep of the relay, which change no byte, and everything of rustls and of certificates.
- Admission.AdmissionController.ReserveWithWait: what other threads did to the counters during a wait is an argument; the interleavings themselves are in the step model.
- That a freed slot promptly wakes a waiter of its class: one condition variable serves both classes and wakes one waiter.
- A panic of the query timer, and lock poisoning.
- Labels: the registry is arbitrary; the rows of the real `LABELS` table are not copied, so that it is unambiguous is an assumption where a lemma needs it.
- PromQLBalance.PrintedMeansExactlyWhen: label names with a bracket in them are left out, since a range is looked for there as well.
- PromQL.ParsePromQuery: the 32-bit width of the parenthesis depth, which a text within the request line limit cannot exceed.
- SqlWhere.LoweringPreservesMeaning: log queries only. Metric and trace conditions push matchers the same way; their other clauses are a time predicate and one equality.
- SqlLike.SearchIsContainmentExactlyWhen: case is folded for ASCII letters only. Text search is modelled as the code does it, with OR detected in any case but split at capitals, not as a boolean language.
- Regular expressions are an uninterpreted predicate that finds `.*` in every text, and label expressions an uninterpreted function of the row.
- The rest of the statements: select lists of log queries, ordering, aggregation in SQL, and all of DuckDB and DuckLake.
- DiscoveryQueries: names are resolved beforehand; reading the rows of the discovery statements and the JSON made of them is not modelled.
- Bumps of the metadata generation by the server: they are steps of the environment.
- Calendar formatting: a written time is a text that is read back to its millisecond.
- Metrics: sums are real numbers, not floating point; label keys are checked as preconditions, as the source asserts them; rendering of metrics is not modelled.
- Http: transfer encodings are not decoded, as the source has none; header text outside ASCII, which the source decodes as UTF-8 before it trims it, and bytes that are not UTF-8, percent-decoding of targets, routing and response bodies, metrics of the connection loop, and failures to write a response.
- Streams: rows are already read; the parsing of their timestamps is not modelled, and the text of a label set is any injective function of it.
- API keys, configuration files, command line, health output, logging and the documentation site.
