# A verified model of promolog

promolog buffers the log entries of each request, promotes a buffer to a store when a policy says so, and lets
the store be queried and cleaned up. This project models that behaviour in Dafny and proves, for all inputs and
all runs, what the program promises. `dafny verify dfyconfig.toml` checks everything.

## How the model is laid out

| file | what it holds |
|---|---|
| `Types.dfy`, `Sequences.dfy`, `Text.dfy`, `Ordering.dfy` | the records, int64 wrap-around and saturation, filters over rows, numerals and words, text order |
| `StatusCode.dfy`, `Rules.dfy` | the digit printer, the operators, the filter-rule engine and the retention engine |
| `Cleanup.dfy` | which rows a cleanup pass removes, against the retention rule in unbounded arithmetic |
| `Codec.dfy`, `Table.dfy`, `Store.dfy` | traces to rows and back, the statements on the table, the store as a class |
| `Runs.dfy`, `Session.dfy` | whole runs in which promotes, deletes and any number of cleanup passes interleave; the class performs these steps |
| `Like.dfy`, `Sql.dfy`, `Query.dfy` | LIKE with an escape character, conditions in three-valued logic with positional arguments, the WHERE builders |
| `Listing.dfy`, `Aggregate.dfy` | listing, filter options, aggregation |
| `Slices.dfy`, `LogBuffer.dfy`, `Handler.dfy`, `Capture.dfy` | Go slices over shared arrays, the bounded buffer, attribute inheritance of the log handler, body capture |
| `Correlation.dfy`, `Promotion.dfy`, `Network.dfy` | request IDs across services; operations; the class whose methods perform the steps of a distributed run |
| `Serving.dfy` | a request on its way through correlation, body capture and the policies, around a handler that logs, tags and responds |

Conventions. HTTP methods are called `verb`. Instants are unbounded integers in nanoseconds; durations and status
codes are int64, and every operation of the source on durations that can wrap or saturate does so here. Clock reads, generated IDs,
`path.Match`, `fmt.Sscanf`, the value of `json_extract` for keys that are not plain names, the engine's order of
tied rows, redactors and policies are parameters: the results hold for every choice of them. The JSON columns
hold structured values. SQL statements are atomic.

## What turned out not to hold

The code is modelled as it is. Where a promise fails, a lemma gives the exact condition and a concrete case.

- Cleanup keeps a trace "for its rule's TTL" exactly when that TTL is at most 2562047 hours: one hour more wraps to a
  negative duration (`NotTooEarlyIff`, `TtlEdgeCases`).
- The comment on the candidate prefilter says that every deletable row is older than the prefilter. A rule with a
  TTL of zero or less switches the tightened prefilter off, and then expired rows stay
  (`InTimeIff`, `InTimeIffTtlsPositive`, `TtlEdgeCases`).
- The default TTLs at the two ends of int64 are special: the greatest never expires, the least wraps
  (`InTimeIff`, `NoRulesIsExactIff`, `DefaultTtlEdgeCases`).
- A pass that has listed a trace removes any trace that is promoted under the same ID before the pass gets to it
  (`FinishingRemovesTheListed`, `ReinsertedTraceIsLost`). Without such a promote it is safe (`InterleavedCleanupIsSafe`).
- The promote callback reports the caller's trace, which is the stored one only if storing leaves it alone
  (`CallbackAgreesWithStoreIff`, `CallbackReportsMore`). A stored sub-millisecond duration becomes NULL when the loaded
  trace is stored again (`NormaliseIsIdempotent`, `HalfMillisecondBecomesNull`).
- A status code that is not positive is offered as a filter option but does not filter
  (`NonPositiveStatusDoesNotFilter`): it selects foreign rows exactly when there are any to select
  (`StatusOptionFiltersIff`, `StatusZeroListsForeignRow`).
- The handler sees its request body unchanged exactly when the redactor leaves the shared memory alone
  (`CaptureRequest`, `BlankingRedactorReachesTheHandler`), and a body limit of the greatest int64 captures nothing
  (`PeekCoversThePrefix`).
- With both correlation headers present a service does not use an ID of its own (`OwnIdIff`), so that IDs can repeat
  (`CorrelationIsAForest`, `RepeatedHeadersShareAnId`). The comment on `CorrelationMiddleware` says that an incoming ID
  is reused; without a parent header the code makes it the parent.

## Model

| member | source | states |
|---|---|---|
| Types.WrapIsExactOnlyInRange | rule.go:137 | int64 arithmetic gives the mathematical result exactly when that result fits |
| Text.DecimalNatIsCanonical | rule.go:175-179 | numerals have digits only, no leading zero, and parse back |
| Text.DecimalNatLength | rule.go:169-179 | a number has at most k digits iff it is below 10^k |
| Text.DigitsAre | rule.go:175-179 | which character each digit is |
| Text.Contains | rule.go:76 | containment is occurrence at some position |
| Text.FieldsAreTheWords | sqlite/store.go:957 | splitting a query yields its maximal runs without white space, each once and in their order |
| Text.FieldIffWord | sqlite/store.go:957 | a text is a term of the query iff it is one of those words |
| Text.SpacesAre | sqlite/store.go:957 | which characters separate words |
| StatusCode.StatusCodeStr | rule.go:164-185 | the in-place printer yields the numeral, a lone sign for the least int64, and panics exactly outside the range |
| StatusCode.FillDigits | rule.go:175-179 | the digit loop stays inside the buffer iff the number has no more digits than the buffer |
| StatusCode.PrinterIsExact | rule.go:164-185 | on -999999999..9999999999 the text parses back to the code and survives trimming |
| StatusCode.PrinterIsInjective | rule.go:164-185 | different codes print differently |
| StatusCode.StartsWithDigit | rule.go:77-78 | a one-digit prefix rule matches exactly the decades d*10^k up to (d+1)*10^k |
| Rules.RuleEngine.constructor | rule.go:40-48 | keeps the enabled filter rules in order |
| Rules.RuleEngine.Match | rule.go:53-67 | the decision is the first rule whose field is present with a text that is equal to, contains, starts with or globs the value, as the operator says, and there is none iff there is no such rule |
| Rules.TriggersMeaning | rule.go:69-84 | what each operator asks of a field, and that a missing field or unknown operator never triggers |
| Rules.RetentionEngine.constructor | rule.go:109-117 | keeps the enabled retention rules in order |
| Rules.RetentionEngine.MinTTL | rule.go:127-138 | the converted least TTL of all rules, 0 without rules |
| Rules.RetentionEngine.Match | rule.go:143-162 | the earliest rule among the applicable ones of least TTL; not found iff none applies |
| Rules.AppliesMeaning | rule.go:69-84 | the same for retention rules |
| Rules.MinHoursIsLeast | rule.go:131-136 | the value is attained by a rule and bounds all rules |
| Rules.ShortestHoursMeaning | rule.go:140-162 | the effective TTL is the least among applicable rules |
| Rules.ShortestHoursIgnoresOrder | rule.go:140-162 | it depends only on which rules there are |
| Rules.DisabledRulesAreInert | rule.go:107-117 | inserting a disabled rule anywhere changes no effective TTL |
| Rules.MinHoursBoundsShortest | rule.go:124-126 | the minimum over all rules bounds every effective TTL from below |
| Rules.HoursConversionIsExactIff | sqlite/store.go:606 | hours convert to nanoseconds exactly iff there are at most 2562047 either way |
| Rules.HoursConversionKeepsOrder | sqlite/store.go:606 | in that range the conversion is strictly monotonic |
| Rules.HoursConversionWraps | sqlite/store.go:606 | one hour past the range the TTL is negative |
| Cleanup.ScanSeesTheTraceFields | sqlite/store.go:595-602 | the scan's field map of a stored trace is the one TraceFields gives, before and after storing |
| Cleanup.FieldsOfStored | sqlite/store.go:595-602 | which datum of a stored trace each field name stands for |
| Cleanup.RemovesByAge | sqlite/store.go:569-611 | removal means older than the prefilter at t1 and than the effective TTL at t2, which is not the greatest int64 |
| Cleanup.InTimeIff | sqlite/store.go:564-628 | for every rule set, default and pair of clock reads: what was expired at t1 goes, iff the prefilter keeps the row no longer than promised, the deciding rule has at least -2562047 hours, and without one the default is not the greatest int64 |
| Cleanup.NotTooEarlyIff | sqlite/store.go:564-628 | for every rule set, default and pair of clock reads: only what is expired at t2 goes, iff no rule decides or one with at most 2562047 hours |
| Cleanup.RemovesOnlyExpired | sqlite/store.go:604-611 | with int64-safe rules nothing is removed before its time, for every default TTL and every sign of the TTLs |
| Cleanup.InTimeIffTtlsPositive | sqlite/store.go:569-611 | with int64-safe rules and default: what was expired at t1 always goes, iff all TTLs are at least an hour or the row cannot expire before the default TTL |
| Cleanup.NoRulesIsExactIff | sqlite/store.go:565-567 | the shortcut path is the rule itself iff the default TTL is not the least int64 |
| Cleanup.TtlEdgeCases | sqlite/store.go:571-611 | a zero TTL that never fires, and a TTL of 2562048 hours that removes a day-old trace |
| Cleanup.RouteRuleDecides | sqlite/store.go:604-611 | a rule "contains /api" of one hour removes a two-hour-old trace of /api/users and leaves one of /home |
| Cleanup.DefaultTtlEdgeCases | sqlite/store.go:565-606 | the greatest int64 as default never expires a row, the least puts the cutoff centuries back |
| Codec.OperationFields.Apply | sqlite/store.go:275-303 | NULL columns leave their destination, others overwrite it; the operation ID is the key exactly for operations |
| Codec.ScanTrace | sqlite/store.go:241-269 | the scan gives the trace the row stands for, and fails on NULL in the three text columns it cannot take |
| Codec.ScanSummary | sqlite/store.go:354-374 | the list scan gives the projection of that trace without reading the user agent |
| Codec.StoreRoundTrip | sqlite/store.go:141-303 | writing then reading a trace gives, field by field and entry by entry, the same data with the supplied time, truncated duration, no empty tags, no empty entry attributes, and the operation ID only for operations |
| Codec.MarshalEntries | promolog.go:30-35 | encoding drops the empty attribute maps of entries and keeps everything else |
| Codec.DurationLosesLessThanOneMs | sqlite/store.go:175-179 | a duration loses less than a millisecond, and a negative one becomes zero |
| Codec.SummaryIsProjectionOfGet | sqlite/store.go:353-374 | the list scan and the full scan of a row agree on what they share |
| Codec.NormaliseIsIdempotent | sqlite/store.go:141-303 | a second round trip loses nothing; the row is rewritten the same iff the duration is not below a millisecond |
| Codec.HalfMillisecondBecomesNull | sqlite/store.go:175-179 | a duration of half a millisecond is stored as 0 and, loaded and stored again, as NULL |
| Codec.CallbackAgreesWithStoreIff | sqlite/store.go:197-217 | the callback's summary is the stored one exactly for traces that storing leaves alone |
| Codec.CallbackReportsMore | sqlite/store.go:197-217 | the callback reports 1500000 ns for an operation that is stored with 1000000 |
| Table.PromoteThenLookup | sqlite/store.go:141-270 | a new trace is found again with the same data field by field; a duplicate changes nothing; other IDs are unaffected |
| Table.DeleteThenLookup | sqlite/store.go:513-516 | deleting forgets that ID and no other |
| Table.RemoveIdEffect | sqlite/store.go:618-626 | a delete removes the one row with the ID or nothing, and reports how many |
| Store.Store.PromoteAt | sqlite/store.go:141-219 | inserts the row unless the ID exists, and then reading gives the trace back field by field; reports duplicates; fires the callback with the data of the trace only on insertion |
| Store.Store.Get | sqlite/store.go:230-270 | answers with the stored trace, nothing, or a failed scan |
| Store.Store.DeleteTrace | sqlite/store.go:513-516 | removes the ID from the table |
| Store.Store.DeleteOlderThan | sqlite/store.go:630-637 | removes exactly the rows before the cutoff and counts them |
| Store.Store.ScanCandidates | sqlite/store.go:569-616 | lists exactly the IDs of the doomed candidates, or stops at the first candidate it cannot read or print |
| Store.Store.DeleteAll | sqlite/store.go:618-627 | the row-by-row deletes leave the rows whose ID is not listed, and count the others |
| Store.Store.RunCleanupWithEngine | sqlite/store.go:564-628 | a pass without interference leaves exactly the surviving rows and returns how many it removed; a faulty candidate leaves the table alone |
| Store.Store.RunCleanup | sqlite/store.go:551-557 | the same, for the enabled rules of the rule table |
| Store.ScanListsTheRemoved | sqlite/store.go:585-612 | prefilter and test together list exactly the rows a pass removes |
| Store.CleanupRefinesTheRule | sqlite/store.go:542-557 | on a whole table: what is gone was expired at t2, and what was expired at t1 is gone |
| Runs.RunKeepsGood | sqlite/store.go:141-219 | the invariant of every step carries over to every run |
| Runs.Conservation | sqlite/store.go:141-219 | over every interleaving: unique IDs, no row lost or doubled, callbacks fired = rows present + deleted + the sum of cleanup counts |
| Runs.DuplicatePromoteIsIgnored | sqlite/store.go:193-196 | a promote changes nothing and fires nothing iff the ID is taken |
| Runs.InterleavedCleanupIsSafe | sqlite/store.go:585-627 | in every run a pass removes only rows it listed or rows promoted after its scan under an ID it had yet to delete; without such a promote only rows that were expired at t2, and no newer row has an ID still to delete; the count is exact |
| Runs.DeletesSpareArrivals | sqlite/store.go:618-626 | without such a promote no delete of a pass touches a row promoted after its scan |
| Runs.InterleavedCleanupIsComplete | sqlite/store.go:585-627 | in every run a finished pass has left no row that its scan saw and that met its test, or that was expired at t1 when TTLs are at least an hour, unless it was promoted again |
| Runs.FinishingRemovesTheListed | sqlite/store.go:618-626 | the rest of a pass removes exactly the rows whose ID is still listed |
| Runs.UndisturbedPassLeavesSurvivors | sqlite/store.go:585-627 | a pass nobody interferes with leaves exactly the rows that survive its test |
| Runs.ReinsertedTraceIsLost | sqlite/store.go:618-626 | deleting and promoting a listed trace again costs the new copy |
| Session.Session.Promote | sqlite/store.go:132-139 | the store's promote is the promote step of a run |
| Session.Session.Delete | sqlite/store.go:513-516 | the store's delete is the delete step of a run |
| Session.Session.Begin | sqlite/store.go:564-616 | a pass's scan, or its single delete without rules, is the begin step of a run |
| Session.Session.DeleteNext | sqlite/store.go:619-626 | each per-row delete is a step of a run |
| Like.EscapeLikeIsOnePass | sqlite/store.go:946-951 | the three sequential replacements equal one character-wise escape |
| Like.EscapingIsExact | sqlite/store.go:946-961 | the pattern of a term matches exactly the values that contain the term, up to the case of ASCII letters |
| Like.FoldAlike | sqlite/store.go:959-961 | characters match when they are equal or the two cases of an ASCII letter |
| Sql.WhereStringMeaning | sqlite/store.go:998-1003 | joining clauses by AND means that each holds, when no clause shows an OR |
| Sql.JoiningExposedOrFails | sqlite/store.go:998-1003 | AND-joining a clause that shows an OR selects a row that fails the next clause |
| Sql.OneMoreClause | sqlite/store.go:959-961 | a clause pushed with its arguments is one more condition, and placeholders keep matching arguments |
| Sql.IdentifiersArePlain | sqlite/store.go:991-994 | keys made of letters, digits and underscores have no path syntax |
| Query.AnyLikeMeaning | sqlite/store.go:959-961 | the OR chain is true iff some column is not NULL and matches |
| Query.SearchClauseMeaning | sqlite/store.go:953-963 | a term's clause is true exactly of the rows in which some column contains it |
| Query.SearchColumnsAre | sqlite/store.go:959-961 | a term is looked for in route, error chain, request ID, user ID, remote IP and method, and in NULL never |
| Query.ExposedSearchMeaning | sqlite/store.go:959-961 | without its parentheses the search clause would let the next clause restrict its last column only |
| Query.ExposedSearchSelectsForeignRow | sqlite/store.go:959-961 | a search among failed requests would then select a request of status 200 |
| Query.WhereBuilder.AddSearch | sqlite/store.go:953-963 | adds: every word of the query is found in the row |
| Query.WhereBuilder.AddStatus | sqlite/store.go:965-981 | adds: the status class or positive code matches |
| Query.WhereBuilder.AddMethod | sqlite/store.go:983-988 | adds: the method is the given one, if any |
| Query.WhereBuilder.AddTags | sqlite/store.go:990-996 | adds: all tags match, in whatever order the map is walked |
| Query.BuildWhere | sqlite/store.go:921-928 | the compiled clause has one argument per placeholder and selects exactly the rows the filter describes; for one word, those whose route, error chain, request ID, method, user ID or remote IP contains it |
| Query.BuildWhereExcluding | sqlite/store.go:930-943 | the same without the excluded dimension |
| Query.NullAdmitsNothing | sqlite/store.go:959-994 | a NULL column never makes a row match |
| Query.PlainTagsAreReadDirectly | sqlite/store.go:991-994 | for keys without path syntax the tag test compares the row's own tags |
| Listing.ListTraces | sqlite/store.go:306-376 | the total counts the described rows; entry i of page p shows row (p-1)*n + i of them in the requested order, and a first page with enough places shows all |
| Listing.SortedIsAsked | sqlite/store.go:322-335 | which column and direction each sort request orders by |
| Listing.StoredTraceIsShown | sqlite/store.go:353-374 | a listed summary has the data of the trace that was stored, field by field |
| Listing.StoredTraceMatchesIff | sqlite/store.go:945-996 | which stored traces a filter describes, said of the traces |
| Listing.ShownIsWhatGetReturns | sqlite/store.go:353-374 | a listed summary is the projection of what Get returns for its ID |
| Listing.AvailableFilters | sqlite/store.go:379-510 | every option list is increasing, numbers by size and texts by their first difference, and holds exactly the values that occur, without the dimension's own filter |
| Ordering.TextLessMeaning | sqlite/store.go:397-410 | text comes first that is a proper beginning or has the lesser character where the two first differ |
| Listing.StatusOptionFindsRows | sqlite/store.go:382-395 | a positive code is offered iff listing with it finds rows |
| Listing.NonPositiveStatusDoesNotFilter | sqlite/store.go:974-979 | any other code does not restrict the status |
| Listing.StatusOptionFiltersIff | sqlite/store.go:974-979 | choosing an offered code lists the rows of that code and no others iff the code is positive or every row it could list has it anyway |
| Listing.StatusZeroListsForeignRow | sqlite/store.go:382-395 | status 0 is offered, and choosing it also lists a row of status 500 |
| Listing.MethodOptionFindsRows | sqlite/store.go:397-410 | a method is offered iff listing with it finds rows |
| Listing.TagOptionFindsRows | sqlite/store.go:461-507 | a value is offered for a plain key iff listing with that one tag finds rows |
| Aggregate.GroupByMeaning | sqlite/store.go:838-841 | grouping yields each occurring key once with its number of rows |
| Aggregate.TopErrors | sqlite/store.go:866-907 | the first five chains of a descending order of all distinct error chains of the rows, without the empty one; so the most frequent, all when there are fewer, and only an empty chain among those five costs a place |
| Aggregate.Aggregate | sqlite/store.go:806-917 | exactly the groups by route, status, method or error chain of the rows not older than the window, with enough rows, each once, most frequent first, with its count and top errors |
| Aggregate.KeyedIsGrouped | sqlite/store.go:806-841 | the rows counted for a key are the recent rows that have it in the column asked for |
| Aggregate.GroupsPartition | sqlite/store.go:838-841 | counts of distinct groups that cover the rows add up to the number of rows |
| Aggregate.AggregateAll | sqlite/store.go:828-831 | with a minimum of one the result accounts for every row of the window once |
| LogBuffer.Buffer.constructor | promolog.go:83-88 | an empty buffer; a negative limit is none |
| LogBuffer.Buffer.Append | promolog.go:91-119 | the in-place buffer keeps head, tail, total and elision of the whole history, for every limit |
| LogBuffer.Buffer.Entries | promolog.go:124-149 | shows the history, or the first half of the limit from its front, one entry that names the number gone and the limit, and the other half from its back |
| LogBuffer.SplitStep | promolog.go:101-118 | one more entry goes to the head, to the tail, or pushes out the oldest of the tail |
| LogBuffer.SplitIsViewed | promolog.go:134-148 | the lengths of head and tail and the number elided as functions of the history's length, and the view they give |
| LogBuffer.Buffer.Tag | promolog.go:58-65 | sets one tag and keeps the others |
| LogBuffer.Buffer.Tags | promolog.go:68-79 | the tags, nil when there are none |
| LogBuffer.ShiftLeft | promolog.go:116 | the in-place copy moves every entry one down |
| LogBuffer.SurvivorsKeepProgramOrder | promolog.go:91-149 | for every interleaving of writers the survivors of each are a beginning and an end of its program |
| LogBuffer.Perform | promolog.go:91-119 | a schedule of appends makes exactly its entries the buffer's history |
| Handler.Handler.WithAttrs | handler.go:95-109 | a new handler whose attributes are its parent's and the new ones, in an array of its own although append may write in place, with the first request ID among them, around the wrapped handler derived with the same attributes |
| Handler.Handler.WithGroup | handler.go:111-118 | a new handler with the same attributes in an array of its own, around the wrapped handler derived with the group |
| Handler.CloneAttrs | handler.go:120-127 | a slice without spare capacity over a fresh array with the same attributes |
| Slices.Append | handler.go:106 | append writes behind a slice in the shared array when there is room, and else moves to a new array with spare capacity |
| Slices.TwoAppendsToOneSlice | handler.go:106 | what the clone prevents: of two appends to one slice with room the second overwrites what the first added |
| Handler.Handler.Handle | handler.go:51-93 | captures one entry when there is a buffer and an ID of a request or an operation: time, level and message of the record, of each key the value that stands last on path and record, no request_id, operation_id forced; always delegates |
| Handler.DerivedIdIsFirst | handler.go:96-102 | the first request_id attribute brings the new request ID |
| Handler.Handler.MergedAttrs | handler.go:63-74 | the two loops compute the last-wins merge |
| Handler.DeriveAll | handler.go:95-127 | for every tree of derivations each handler has exactly its path's attributes and request ID and wraps a handler derived along that path, no array is shared, and the first handler's array, spare capacity included, is as it was |
| Capture.ConfiguredSize | bodycapture.go:24-30 | the configured limit is always positive |
| Capture.ConfiguredSizeIsLast | bodycapture.go:24-30 | the last positive option is the limit, 65536 without one |
| Capture.CaptureResponseWriter.Write | bodycapture.go:115-133 | keeps the first maxSize bytes and the redacted body after every call, even when the redactor writes into its argument; forwards every byte |
| Capture.CaptureResponseWriter.WriteAll | bodycapture.go:115-133 | for every redactor, scribbling ones too, the stored body and the forwarded bytes depend on the concatenation only, not on the chunks |
| Capture.CaptureRequest | bodycapture.go:66-82 | what is stored, what the handler reads, and that it reads the original iff the redactor leaves the memory alone |
| Capture.BlankingRedactorReachesTheHandler | bodycapture.go:76-82 | a redactor that blanks the body in place makes the handler read the zeros that are stored |
| Capture.PeekCoversThePrefix | bodycapture.go:68-74 | the read-ahead suffices for every limit but the greatest int64, for which nothing is captured |
| Correlation.CorrelationMiddleware | correlation.go:88-119 | from X-Request-ID and X-Parent-Request-ID: the ID is the incoming one iff both are given, the parent is the parent header or else the incoming ID; the response header, the start time, and a new empty buffer with the configured limit |
| Correlation.OwnIdIff | correlation.go:93-104 | the ID is a generated one iff one of the two headers is missing |
| Correlation.BothHeadersRepeatIds | correlation.go:90-104 | two requests with the same two headers get the same ID |
| Correlation.RoundTrip | correlation.go:139-148 | the request sent carries the context's ID as X-Request-ID on a copy of the headers; no existing header map is written to |
| Correlation.StepKeepsForestIff | correlation.go:88-148 | a step of a distributed run keeps IDs distinct and parents older iff its headers are unambiguous: both headers only with an unknown ID that is not its own parent, and no parent header on a call |
| Correlation.CorrelationIsAForest | correlation.go:88-148 | whatever headers requests from outside bring: IDs never repeat, a call's parent is its caller and parents are older iff all headers were unambiguous; then every walk along parents ends at an outside request |
| Correlation.RepeatedHeadersShareAnId | correlation.go:90-104 | two requests with the same two headers are a run that is no forest |
| Correlation.OperationsKnowTheirOrigin | operation.go:68-86 | an operation carries the IDs of the request it was started in; with unambiguous headers its own ID is no request's |
| Network.Network.Edge | correlation.go:88-119 | the middleware on a request from outside is the edge step of a distributed run |
| Network.Network.Call | correlation.go:139-148 | transport and middleware together are the call step, and the response carries the ID |
| Network.Network.Start | operation.go:68-86 | starting an operation is the start step |
| Promotion.Operation.constructor | operation.go:68-86 | origin and parent from the context, last-wins attributes, an empty buffer of its own |
| Promotion.Operation.MergeTags | operation.go:97-107 | the start attributes with the buffer's tags winning, nil when there are none |
| Promotion.Operation.TraceOf | operation.go:96-131 | the trace of a finished operation: status and error from the outcome, tags with the buffer's values winning, saturated duration |
| Promotion.OperationTraceSurvives | operation.go:96-131 | storing loses nothing of such a trace but empty entry attributes and the sub-millisecond part of its duration |
| Promotion.PromoteOperation | operation.go:137-144 | no operation or a duplicate leaves the store alone; otherwise exactly one row is added, a registered callback fires once, and reading gives name, origin, parent, outcome, merged tags, entries and times of the operation |
| Serving.ResponseWriter.WriteHeader | autopromote.go:21-27 | the recorded status is that of the first call, and every call reaches the writer underneath |
| Serving.ResponseWriter.Write | autopromote.go:29-35 | a body without a header records 200, later headers do not count, and every byte is passed on |
| Serving.AutoPromote | autopromote.go:125-140 | for every handler that logs, tags and responds: promotes what it left in the buffer iff some policy accepts the first status and the context has an ID and a buffer; adds exactly one row and fires a registered callback once for a new ID, and changes nothing otherwise; reading gives the data of request and buffer field by field |
| Serving.PromoteFromRequest | autopromote.go:142-174 | one row more and one callback fired, or nothing for a duplicate; reading gives path, method, agent, address, IDs and status of the request, and tags, view and both bodies of its buffer |
| Serving.FirstStatusAnswers | autopromote.go:21-35 | the status is the code of the first response, and 200 when that is a body or there is none |
| Serving.RunHandler | autopromote.go:21-35 | the client gets all codes and bodies, and the buffer the handler's entries, tags and redacted response body |
| Serving.Serve | bodycapture.go:47-51 | through all three middlewares: the client gets what the handler sent, and when a policy accepts the first status reading the request's ID gives, field by field, the request's data, the view of what the handler logged, its tags, and the redacted prefixes of the incoming and of the sent body |

## Left out

- The SQLite engine, its files, locking and errors; the text of the SQL, which is a structure of conditions here.
- Driver encodings: JSON text, stored timestamps, strings that are not valid Unicode, and the difference between a nil and an empty list of entries.
- Times outside what Go's time type can represent, and the monotonic clock reading.
- `EnsureSchema`, its migrations, and the create, list, update and delete statements of the two rule tables: the rule list is a parameter.
- `StartCleanup`: its ticker; each tick is one cleanup pass.
- Ties in ORDER BY: the page is a slice of some correctly ordered list, so pages taken one after another need not fit together.
- The offset of a page number so large that the multiplication leaves int64.
- `generateID` failing, in which case the source uses an empty ID; generated IDs are new and not empty here.
- `Flusher`, `Hijacker` and `Unwrap` variants of the response writers, header plumbing, HTTP clients, informational 1xx responses.
- Several values under one header name, and contexts that already carry correlation values when the middleware runs.
- Exporters, `WireExporter`, and the built-in policies: a policy is any function of the status.
- What the wrapped handler does with the attributes and groups it was derived with, such as prefixing keys: it records them with each record.
- Handlers that panic, and handlers whose own context carries another buffer than the request's.
- Slices that start inside their array: a slice here begins at the front of its backing array.
- Go's growth of the tail slice: the buffer's tail has its full size from the start.
