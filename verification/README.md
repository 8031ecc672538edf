# Verified model of the language server's stateful core

This project models the stateful core of the language server in Dafny and proves what it promises,
for every input, every run and every interleaving of steps. Check it with
`dafny verify dfyconfig.toml`.

| file | component |
|---|---|
| `DependencyGraph.dfy`, `CircularityCheck.dfy`, `DependencySort.dfy`, `Container.dfy` | the dependency-injection container: interface graph, depth-first cycle check, recursive topological sort, instantiation |
| `Streaming.dfy` | the streaming handler as a state machine over its awaits |
| `DirMatcher.dfy` | the directory matcher, a trie on the heap |
| `AsyncDebounce.dfy` | the asynchronous debounce |
| `SuggestionsCache.dfy` | the cache of code suggestions |
| `Utf8.dfy`, `ByteSize.dfy`, `ContextFilters.dfy`, `PreProcessor.dfy`, `MergeRequests.dfy` | UTF-8, truncation to byte limits, the context filters, the request size limit, the merge request budget |
| `CircuitBreakers.dfy` | the exponential and the fixed-time circuit breaker |
| `InlineCompletion.dfy` | request text, response item and the document after accepting it |
| `MessageValidation.dfy` | the RPC message validators and the service that combines them |
| `Fibonacci.dfy` | the memoising Fibonacci solver |
| `Text.dfy`, `Wrappers.dfy` | splitting, joining and whitespace; shared datatypes |

Objects with mutable fields are classes whose methods are proved against a function on the abstract
state (`View() == Next(old(View()), event)`); the theorems about runs are lemmas about that function.
The streaming handler has no object of its own per stream, only the local variables of an
asynchronous function, so it is modelled by its steps alone.

## Where the code differs from what it says

For each of these there is a lemma with a concrete input and one with the exact condition under
which the code does what is promised, for all inputs or runs.

- Both container validators can accept a class list on which the topological sort never ends: the
  cycle check follows only the first class of an interface, the sort follows all of them
  (`AcceptedButCyclic`). The sort ends exactly if the relation over all classes is acyclic
  (`SortDependencies`, `Instantiate`).
- A comment at `packages/lib_di/src/index.ts:125` says that collections are always considered
  present as they can be empty. The presence validator agrees, but the cycle check then throws on the
  base id (`EmptyCollectionIsReportedMissing`). `NoCircularDependencies` says when.
- `docs/telemetry.md:60` says a suggestion counts as cancelled when the request was cancelled before
  the first chunk was shown. On event streams SHOWN can follow CANCELLED, because the parser receives
  the "cancelled or errored" flag by value (`ShownAfterCancellation`, `StoppedQuietlyExactly`).
- The state flow at `docs/telemetry.md:77-78` puts the start of a stream before the first text shown.
  A stream can be tracked as shown before its start or without one (`ShownBeforeStart`,
  `ShownWithoutStart`, `ShownAfterStartedExactly`).
- The `done` notification is sent once more for every event that is not JSON (`DoneTwice`,
  `FinalNotificationIsDone`).
- The debounce documentation says that a promise resolves to the result of the latest call when the
  wait expires. A caller that arrives while a call is in flight is settled by that call
  (`ResultForOlderArgs`, `SettledByLaterCallExactly`). A synchronous throw leaves the waiting callers
  without a timer until the next caller comes (`ThrowStrandsCaller`, `StrandedExactly`,
  `NextCallerRescues`).
- `truncateToByteLimit` and both users of byte limits can exceed their limit by one or two bytes, since
  a character cut in two decodes to a three-byte replacement character (`OvershootExample`,
  `TruncateExactly`; `CutItemOvershoots`, `LimitIsKept`).
- A negative limit of `truncateToByteLimit` counts from the end (`NegativeLimitKeepsText`,
  `NegativeLimitCountsFromEnd`). The pre-processor of code suggestions relies on this when it cuts the
  suffix of an oversized document; the prefix is sent whole even if it is too large by itself
  (`LargePrefixIsSent`, `RequestKeepsToLimit`).
- A configured window of zero prefix lines puts the whole prefix into the cache key
  (`EarlierLineMatters`, `ZeroPrefixLinesMeansAll`, `BlankTextAboveIsFree`); for any other window the
  lines outside it do not matter (`FarLinesDoNotMatter`).
- The parts of the cache key are joined by colons, so other lines around the cursor can give the same
  key (`ColonsCollide`); kept lines without colons cannot (`KeyIsUnique`).
- The mismatch filter is meant to let through only requests whose completion the editor can display. A
  range that ends before the cursor can pass it and change the text when accepted
  (`RangeShortOfCursor`, `FilterIsExact`, `WithSelection`).
- The fixed-time breaker can close before the time of its last opening is over
  (`StaleTimerClosesEarly`, `ClosesOnTimeExactly`).

## Model

| member | source | states |
|---|---|---|
| CircularityCheck.Search.HasCircularDependency | packages/lib_di/src/index.ts:151-178 | the search ends because the classes not yet on the stack become fewer; a negative answer restores the stack, and then no path from the interface repeats, touches the stack or leads to an unknown id; a positive one leaves a path on the stack whose last node leads back into it |
| CircularityCheck.Search.NoCircularDependencies | packages/lib_di/src/index.ts:180-188 | all classes pass exactly if the graph of first providers is acyclic and names no unknown id; with all ids known a cycle is reported exactly if there is one; the stack is empty after every negative answer, and the reported stack is a real cycle with the way to it |
| CircularityCheck.LassoIsCycle | packages/lib_di/src/index.ts:152-154 | finding an interface on the stack means that there is a cycle |
| CircularityCheck.SafeStep | packages/lib_di/src/index.ts:166-177 | an interface is clear if all its dependencies are clear with it on the stack |
| CircularityCheck.SafeEverywhere | packages/lib_di/src/index.ts:180-188 | if every class is clear there is no cycle anywhere and no unknown id |
| DependencyGraph.OneClassPerIdGraphsAgree | packages/lib_di/src/index.ts:157-200 | with one class per interface the cycle check and the sort follow the same graph |
| DependencyGraph.FindIsFirst | packages/lib_di/src/index.ts:157 | the cycle check looks at the first class in the list with the id |
| DependencySort.Sorter.TopologicalSort | packages/lib_di/src/index.ts:199-213 | on success all classes of the interface are sorted after everything they need; on an acyclic graph only untouched interfaces below it change, each completely, and the stack needs no more frames than there are interfaces |
| DependencySort.SortDependencies | packages/lib_di/src/index.ts:195-219 | the sort ends with a result exactly if the provider relation over all classes is acyclic; the result is a permutation that keeps the order within each interface and puts every provider, all implementations of a collection included, before the class that needs it |
| DependencySort.ProvidersFirstIsAcyclic | packages/lib_di/src/index.ts:191-194 | a list that puts providers first exists only for an acyclic provider relation |
| DependencySort.PathDescends | packages/lib_di/src/index.ts:191-194 | everything a class needs, however indirectly, stands before it |
| DependencySort.StackIsShort | packages/lib_di/src/index.ts:199-213 | on an acyclic graph the recursion is never deeper than the number of interfaces |
| Containers.UnmetReport | packages/lib_di/src/index.ts:119-145 | the presence validator reports nothing exactly if every single dependency has a class or an instance |
| Containers.ReportNamesUnmet | packages/lib_di/src/index.ts:122-142 | the report names exactly the classes with unmet dependencies, each with exactly those |
| Containers.Container.AddInstances | packages/lib_di/src/index.ts:254-269 | each interface gets its branded objects appended in order, up to the first object without a brand; no entry is empty |
| Containers.Container.Instantiate | packages/lib_di/src/index.ts:275-320 | which outcome occurs, for every class list, by conditions on the list and the container, and what it reports; "No instance found" never occurs; on success each interface holds its old instances and one new one per class in list order, each built from the final contents of the container: for a collection its constructor got all instances of the interface, for a single dependency the only one; if a single dependency is ambiguous, exactly the classes before the one that first needs it, in a providers-first order, are instantiated; no entry is ever empty |
| Containers.Container.InstantiateSorted | packages/lib_di/src/index.ts:293-319 | the loop succeeds exactly if every single dependency has one instance in total, and never finds none; otherwise it stops with the classes up to the first that cannot be built instantiated |
| Containers.ResolutionIsFinal | packages/lib_di/src/index.ts:294-310 | when a class is reached, every interface it needs already holds all its instances of this batch, and at least one |
| Containers.ResolveSupplies | packages/lib_di/src/index.ts:294-310 | an argument is resolved exactly if its interface has one instance or it is a collection; a collection gets all instances, a single dependency the only one |
| Containers.PushInstance | packages/lib_di/src/index.ts:313-318 | a new instance changes nothing that an earlier one was built from |
| Containers.CompleteMeansNoMore | packages/lib_di/src/index.ts:293-319 | after the last class of an interface no other one follows |
| Containers.Container.Get | packages/lib_di/src/index.ts:322-333 | an instance is found exactly if the interface has one; none and several are told apart |
| Containers.AcceptedButCyclic | packages/lib_di/src/index.ts:157-200 | a class list that both validators accept although its provider relation is cyclic |
| Containers.EmptyCollectionIsReportedMissing | packages/lib_di/src/index.ts:124-164 | a list with only an empty collection passes the presence validator and fails the cycle check |
| Streaming.InvariantHolds | src/common/suggestion/streaming_handler.ts:142-419 | the invariants behind the results below hold after every run |
| Streaming.NotificationsAreAPrefixChain | src/common/suggestion/streaming_handler.ts:353-377 | on every interleaving the buffers behind the partial notifications are growing prefixes of the delivered text |
| Streaming.CleanRunDeliversEverything | src/common/suggestion/streaming_handler.ts:270-297 | if nothing was cancelled, failed or blocked, every request was notified and the last notification carries everything delivered |
| Streaming.CleanRunTelemetry | src/common/suggestion/streaming_handler.ts:222-289 | such a run tracks its start exactly if a notification was requested, SHOWN exactly if visible text was delivered, and its completion |
| Streaming.AtMostOneLateNotification | src/common/suggestion/streaming_handler.ts:404-418 | after a cancellation at most one partial notification is sent |
| Streaming.SentLateAtMostOnce | src/common/suggestion/streaming_handler.ts:404-418 | the same on the events: at most one notification is sent in a step after a cancellation request |
| Streaming.FinalNotificationIsDone | src/common/suggestion/streaming_handler.ts:182-186 | the last notification is `done`; there is one more `done` for each event that is not JSON |
| Streaming.DoneTwice | src/common/suggestion/streaming_handler.ts:182-186 | a run with one event that is not JSON sends `done` twice |
| Streaming.TelemetryIsConsistent | src/common/suggestion/streaming_handler.ts:188-244 | STREAM_STARTED, SHOWN, STREAM_COMPLETED and NOT_PROVIDED are tracked at most once; ERRORED excludes STREAM_COMPLETED; NOT_PROVIDED comes with STREAM_COMPLETED and never with SHOWN; REJECTED needs SHOWN |
| Streaming.ErrorsAndCompletionExactly | src/common/suggestion/streaming_handler.ts:166-244 | over all runs: ERRORED is tracked once per event that is not JSON, failed response and, on plain streams, failed notification; REJECTED and CANCELLED together once per cancellation request before disposal; STREAM_COMPLETED exactly if the final notification is sent with none of these before it |
| Streaming.ShownAfterStartedExactly | src/common/suggestion/streaming_handler.ts:404-416 | over all runs: STREAM_STARTED is tracked exactly if a notification got past a closed circuit breaker before any cancellation; SHOWN exactly if visible text was parsed, or a plain chunk was handled and not cancelled; the first precedes the second exactly if a notification had started whenever visible text became available |
| Streaming.ShownWithoutStart | src/common/suggestion/streaming_handler.ts:284-287 | a plain stream under an open circuit breaker that is tracked as shown and completed without a start, and sends nothing but `done` |
| Streaming.ShownBeforeStart | src/common/suggestion/streaming_handler.ts:362-375 | an event stream that tracks SHOWN before STREAM_STARTED |
| Streaming.NotProvidedExactly | src/common/suggestion/streaming_handler.ts:178-196 | NOT_PROVIDED is tracked exactly for completions without SHOWN and without an end event |
| Streaming.CancellationsAreClassified | src/common/suggestion/streaming_handler.ts:166-175 | each cancellation is tracked as REJECTED if the suggestion was shown before it, as CANCELLED otherwise |
| Streaming.StoppedQuietlyExactly | src/common/suggestion/streaming_handler.ts:353-366 | over all runs: SHOWN follows a cancellation or error exactly if the stream is an event stream whose first visible text arrives after a cancellation request or an event that is not JSON |
| Streaming.PlainStreamsStopQuietly | src/common/suggestion/streaming_handler.ts:284-287 | plain-text streams never track SHOWN after a cancellation or error |
| Streaming.ShownAfterCancellation | src/common/suggestion/streaming_handler.ts:258-366 | an event stream that tracks CANCELLED and then SHOWN |
| Streaming.DrainingProgresses | src/common/suggestion/streaming_handler.ts:292-297 | after the response has ended every step except a cancellation brings the stream closer to its end |
| Streaming.EndsSoon | src/common/suggestion/streaming_handler.ts:292-297 | however it goes on after the response has ended, the stream takes at most three steps per waiting notification and five more, not counting cancellations |
| Streaming.NeverStuck | src/common/suggestion/streaming_handler.ts:270-297 | a stream that is not over can always take a step |
| DirMatcher.FastDirectoryMatcher.AddPath | src/common/services/fs/dir_matcher.ts:73-85 | adding a path changes the trie into one for the history with this addition |
| DirMatcher.FastDirectoryMatcher.AddChild | src/common/services/fs/dir_matcher.ts:77-79 | a new node keeps the trie a tree and stores nothing yet |
| DirMatcher.FastDirectoryMatcher.AddFileToMatch | src/common/services/fs/dir_matcher.ts:52-55 | a file adds its directory |
| DirMatcher.FastDirectoryMatcher.FindMatchingDirectories | src/common/services/fs/dir_matcher.ts:93-110 | the walk returns the stored directories on the path of the query, least specific first, in terms of the history alone |
| DirMatcher.FastDirectoryMatcher.Dispose | src/common/services/fs/dir_matcher.ts:116-119 | all old nodes are emptied and the matcher starts anew |
| DirMatcher.FastDirectoryMatcher.ClearNode | src/common/services/fs/dir_matcher.ts:121-126 | the recursion ends, empties exactly the subtree and leaves every other node alone |
| DirMatcher.FoundExactly | src/common/services/fs/dir_matcher.ts:87-110 | a directory is found exactly if it was the last one added since the last reset for a non-empty prefix of the query |
| DirMatcher.MatchesAreThePrefixes | src/common/services/fs/dir_matcher.ts:90-91 | the result lists all stored non-empty prefixes of the query, in order of increasing length |
| DirMatcher.ReplayIsLastWriter | src/common/services/fs/dir_matcher.ts:82-84 | for equal paths the last writer wins, and a reset forgets everything |
| DirMatcher.NoMatchBelow | src/common/services/fs/dir_matcher.ts:100-103 | stopping at a missing child loses no match |
| DirMatcher.SplitPathComposes | src/common/services/fs/utils.ts:24-27 | a directory's segments are a prefix of those of everything below it; a trailing separator makes no difference |
| DirMatcher.SplitPathGivesSegments | src/common/services/fs/utils.ts:24-27 | no segment is empty or contains a separator |
| DirMatcher.SplitPathOfSegment | src/common/services/fs/utils.ts:24-27 | the empty path has no segments, and a segment is the only one of itself |
| DirMatcher.SplitPathJoin | src/common/services/fs/utils.ts:24-27 | splitting gives back any list of segments joined by either separator |
| AsyncDebounces.NoCallerIsLost | src/common/utils/async_debounce.ts:23-54 | on every run both sets hold the same callers, no promise is settled twice, every promise is waiting or settled, and waiting callers have a pending timer or a call in flight, except exactly after the synchronous throws of the next row |
| AsyncDebounces.StrandedExactly | src/common/utils/async_debounce.ts:30-31 | over all runs: callers are left without a timer or a call in flight exactly if the run ends with a synchronous throw, somebody called since the last settlement, and every call made has settled |
| AsyncDebounces.NextCallerRescues | src/common/utils/async_debounce.ts:23-54 | after every run one more caller brings the waiting ones a timer; however it goes on, they wait until the first settlement, which settles all of them, fulfilled or rejected, and is by a call made for that caller or later if none was in flight |
| AsyncDebounces.ThrowStrandsCaller | src/common/utils/async_debounce.ts:30-31 | a run in which a caller is left waiting that way, and its continuation that settles it |
| AsyncDebounces.EverybodyCanBeSettled | src/common/utils/async_debounce.ts:32-42 | at most two more steps settle all waiting callers |
| AsyncDebounces.TimerHasLatestArgs | src/common/utils/async_debounce.ts:26-52 | the pending call has the arguments of the latest caller |
| AsyncDebounces.CallsHaveLatestArgs | src/common/utils/async_debounce.ts:26-52 | every call of the function was made with the latest arguments at its time |
| AsyncDebounces.SettledAsTheCallWas | src/common/utils/async_debounce.ts:32-42 | promises are fulfilled only by fulfilled calls and rejected only by rejected ones |
| AsyncDebounces.SettledByLaterCallExactly | src/common/utils/async_debounce.ts:8-10 | a caller is certain to be settled by a call made after it exactly if no call is in flight when it arrives |
| AsyncDebounces.ResultForOlderArgs | src/common/utils/async_debounce.ts:32-37 | a run in which a caller gets the result of a call made with the arguments of an earlier one |
| AsyncDebounces.AsyncDebounce.DebouncedWrapper | src/common/utils/async_debounce.ts:45-53 | both callbacks of the new promise are registered and the timer restarts with the new arguments |
| AsyncDebounces.AsyncDebounce.OnFulfilled | src/common/utils/async_debounce.ts:32-37 | all waiting callers, and no others, are fulfilled, and both sets are emptied |
| AsyncDebounces.AsyncDebounce.OnRejected | src/common/utils/async_debounce.ts:38-42 | all waiting callers, and no others, are rejected, and both sets are emptied |
| SuggestionsCaches.OptionsExactly | src/common/suggestion/suggestions_cache.ts:149-176 | the options are, in stored order, exactly the suggestions of which the user has typed a proper prefix; line plus option is the line the suggestion was made for, and no option is empty |
| SuggestionsCaches.TypingKeepsKey | src/common/suggestion/suggestions_cache.ts:73-98 | typing on in a line finds the same entry exactly unless it adds to the indentation |
| SuggestionsCaches.FarLinesDoNotMatter | src/common/suggestion/suggestions_cache.ts:79-89 | text above and below the configured window of non-blank lines leaves the key unchanged |
| SuggestionsCaches.KeyIsUnique | src/common/suggestion/suggestions_cache.ts:73-98 | requests whose kept lines hold no colon share a key exactly if they agree in URI, line number, kept lines and indentation |
| SuggestionsCaches.ColonsCollide | src/common/suggestion/suggestions_cache.ts:91-97 | two requests with different lines around the cursor and the same key |
| SuggestionsCaches.ZeroPrefixLinesMeansAll | src/common/suggestion/suggestions_cache.ts:81-84 | with a window of zero prefix lines two prefixes have the same key exactly if all their non-blank lines above the cursor and the indentation at it are the same |
| SuggestionsCaches.BlankTextAboveIsFree | src/common/suggestion/suggestions_cache.ts:81-84 | with that window text further up leaves the key unchanged exactly if it is blank |
| SuggestionsCaches.EarlierLineMatters | src/common/suggestion/suggestions_cache.ts:81-84 | two prefixes that differ in one earlier line and have different keys |
| SuggestionsCaches.StoreTypeAsk | src/common/suggestion/suggestions_cache.ts:108-182 | after storing, typing and asking, the answer holds the suggestions that continue what was typed |
| SuggestionsCaches.CountersStaySmall | src/common/suggestion/suggestions_cache.ts:100-106 | over any run every stored retrieval counter is 1 |
| SuggestionsCaches.ServedOncePerPosition | src/common/suggestion/suggestions_cache.ts:139-147 | over any run one stored entry is served at most once per position; the next query there returns nothing and deletes it |
| SuggestionsCaches.ServedAtEveryPosition | src/common/suggestion/suggestions_cache.ts:126-182 | over any run that neither stores again nor loses the entry, a question at its key is answered, at any position, exactly if no position was asked twice since; the answer continues what was typed |
| SuggestionsCaches.LostIsNotServed | src/common/suggestion/suggestions_cache.ts:134-147 | an entry that was evicted or expired while it was read is not served any more |
| SuggestionsCaches.SuggestionsCache.AddToSuggestionCache | src/common/suggestion/suggestions_cache.ts:108-124 | stores a fresh entry under the request's key unless the cache is disabled |
| SuggestionsCaches.SuggestionsCache.GetCachedSuggestions | src/common/suggestion/suggestions_cache.ts:126-182 | answers and updates the cache as the specification says, also if the entry expires while it is read |
| SuggestionsCaches.DecimalIsInjective | src/common/suggestion/suggestions_cache.ts:91-97 | different indentations have different numerals |
| SuggestionsCaches.DecimalRoundTrip | src/common/suggestion/suggestions_cache.ts:91-97 | a numeral stands for its number |
| SuggestionsCaches.WindowsAreNearest | src/common/suggestion/suggestions_cache.ts:81-89 | the windows hold as many lines as configured, or all there are, and those nearest to the cursor |
| SuggestionsCaches.NonEmptyLinesConcat | src/common/suggestion/suggestions_cache.ts:81-87 | lines are kept one by one, in order |
| SuggestionsCaches.NonEmptyLinesOf | src/common/suggestion/suggestions_cache.ts:81-87 | a line is kept exactly if it is not blank |
| SuggestionsCaches.IndentationIs | src/common/suggestion/suggestions_cache.ts:76-77 | the indentation is where the first visible character stands |
| SuggestionsCaches.CurrentLineIs | src/common/suggestion/suggestions_cache.ts:74-76 | the current line is what follows the last line break of the prefix |
| Utf8.RoundTrip | src/common/utils/byte_size.ts:1-3 | every string survives encoding and decoding |
| Utf8.DecodeCut | src/common/utils/byte_size.ts:23 | cutting encoded text anywhere keeps the whole characters and turns the rest of a cut one into one replacement character |
| Utf8.DecodeFirstEncoded | src/common/utils/byte_size.ts:23 | an encoded character is one well-formed sequence and decodes to itself |
| Utf8.DecodeFirstIsEncoded | src/common/utils/byte_size.ts:23 | what decodes to a character other than the replacement one is the encoding of that character |
| Utf8.DecodeCutChar | src/common/utils/byte_size.ts:23 | what is left of a cut character is one maximal subpart |
| ByteSize.CutSize | src/common/utils/byte_size.ts:23 | how many bytes the decoded cut takes, to the byte |
| ByteSize.FittingTextIsKept | src/common/utils/byte_size.ts:19-21 | a text that fits is returned unchanged, whatever the separator |
| ByteSize.LastWhitespaceRunIs | src/common/utils/byte_size.ts:25 | the last match of the default separator is the start of the last run of whitespace |
| ByteSize.NegativeLimitCountsFromEnd | src/common/utils/byte_size.ts:19-23 | with any separator a negative limit is the size of the string less that many bytes, or zero; this gives the effective limit of the next rows |
| ByteSize.TruncateNearLimit | src/common/utils/byte_size.ts:14-31 | for every limit and separator the result takes at most two bytes more than the effective limit |
| ByteSize.TruncateAtWhitespace | src/common/utils/byte_size.ts:25-28 | for every limit: if whitespace fits under the effective limit the result is the proper prefix up to the last run of it, with fewer bytes than the limit |
| ByteSize.TruncateExactly | src/common/utils/byte_size.ts:5-12 | for every limit: the effective limit is exceeded exactly if no whitespace fits and the cut leaves one or two bytes of a character; a negative limit itself is never met |
| ByteSize.OvershootExample | src/common/utils/byte_size.ts:14-31 | a two-byte character truncated to one byte takes three |
| ByteSize.NegativeLimitKeepsText | src/common/utils/byte_size.ts:19-23 | a string from which a negative limit keeps text |
| PreProcessors.ByteSizeLimitPreProcessor.Process | src/common/suggestion_client/pre_processors/byte_size_limit.ts:48-102 | an oversized document loses the end of its suffix and all items; otherwise the items are limited as by the context filter |
| PreProcessors.TrimmedDocumentSize | src/common/suggestion_client/pre_processors/byte_size_limit.ts:56-60 | the trimmed document keeps to the limit exactly if the prefix does and the cut through the suffix does not overshoot what the prefix leaves; no suffix is left if the prefix alone is too large |
| PreProcessors.TrimmedSuffixIs | src/common/suggestion_client/pre_processors/byte_size_limit.ts:56-60 | the suffix of an oversized document is truncated to what the prefix leaves of the limit |
| PreProcessors.RequestKeepsToLimit | src/common/suggestion_client/pre_processors/byte_size_limit.ts:34-38 | for every request the exact condition under which document and items together keep to the limit; the excess is at most two bytes unless the prefix alone exceeds it, and then only the prefix is sent |
| PreProcessors.LargePrefixIsSent | src/common/suggestion_client/pre_processors/byte_size_limit.ts:56-73 | a document whose prefix alone exceeds the limit and is sent |
| ContextFilters.ByteSizeLimitFilter | src/common/advanced_context/advanced_context_filters.ts:78-111 | the result is the items that fit, followed by what fits of the next one |
| ContextFilters.NegativeSliceKeepsRoom | src/common/advanced_context/advanced_context_filters.ts:91-95 | the slice with a negative end keeps exactly the room left under the limit |
| ContextFilters.FitCount | src/common/advanced_context/advanced_context_filters.ts:89-109 | as many items fit as keep to the limit together with the document, and one more would not |
| ContextFilters.FitIsUnique | src/common/advanced_context/advanced_context_filters.ts:89-109 | that number is determined by the items and the limit |
| ContextFilters.LimitIsKept | src/common/advanced_context/advanced_context_filters.ts:73-77 | a prefix with at most one trimmed item; nothing if the document alone is too large; otherwise within the limit exactly unless one or two bytes of a cut character remain, and within two bytes of it always |
| ContextFilters.CutItemOvershoots | src/common/advanced_context/advanced_context_filters.ts:91-106 | an item of two bytes, limited to one, takes three |
| ContextFilters.TrimmedItemIs | src/common/advanced_context/advanced_context_filters.ts:91-104 | a trimmed item keeps the characters that fit, with one replacement character for a cut one, and is dropped if nothing fits |
| ContextFilters.EmptyContentFilter | src/common/advanced_context/advanced_context_filters.ts:31-42 | keeps, in order, the items with visible content |
| ContextFilters.FilterContextResolutions | src/common/advanced_context/advanced_context_filters.ts:155-170 | the four filters in sequence keep, in order, the items that pass the first three, limited in size |
| ContextFilters.PassingItems | src/common/advanced_context/advanced_context_filters.ts:143-148 | the first three filters together select by the conjunction of their conditions |
| ContextFilters.DroppedExactly | src/common/advanced_context/advanced_context_filters.ts:31-137 | an item is dropped before the size limit exactly if it is blank, of a disabled project while the document is in a workspace, or a file whose known language is not enabled |
| ContextFilters.SelectIsSubsequence | src/common/advanced_context/advanced_context_filters.ts:117-136 | a selection keeps the order and exactly the items that satisfy its condition |
| MergeRequests.ContentLimitShares | src/common/ai_context_management/context_providers/utils.ts:12-23 | the shares of n items are the largest whole ones that fit into 144000 bytes |
| MergeRequests.SortNotesIsStable | src/common/ai_context_management/context_providers/format_issueables.ts:18-21 | the notes are put into chronological order, those of one moment in their original order |
| MergeRequests.ContentSize | src/common/ai_context_management/context_providers/merge_request.ts:218-224 | the content takes its header, its two sections and 23 bytes |
| MergeRequests.ContentLines | src/common/ai_context_management/context_providers/merge_request.ts:218-224 | line by line the content is the header, the diffs under their heading and the notes under theirs |
| MergeRequests.DiffLines | src/common/ai_context_management/context_providers/merge_request.ts:237-244 | line by line a diff is its two paths and its text |
| MergeRequests.JoinDiffsConcat | src/common/ai_context_management/context_providers/merge_request.ts:231-235 | diffs follow each other directly, in order |
| MergeRequests.OneDiff | src/common/ai_context_management/context_providers/merge_request.ts:231-235 | a single diff is formatted by itself |
| MergeRequests.FittingSectionsAreComplete | src/common/ai_context_management/context_providers/merge_request.ts:209-235 | sections that fit are complete: all diffs, and all notes in chronological order with a blank line between two |
| MergeRequests.MergeRequestsShareTheBudget | src/common/ai_context_management/context_providers/merge_request.ts:202-216 | the diffs and notes of all attached merge requests stay within 144000 bytes plus two per section cut through a character; headers and 23 bytes of headings each come on top |
| ExponentialBackoff.OpenWhileOneTimerRuns | src/common/circuit_breaker/exponential_backoff_circuit_breaker.ts:41-78 | on every run the breaker is open exactly while one timer runs, the recorded one, and its events alternate beginning with open |
| ExponentialBackoff.DelaysNeverDecrease | src/common/circuit_breaker/exponential_backoff_circuit_breaker.ts:90-95 | between two successes the delays never decrease and lie between the smaller of initial and maximum, and the maximum |
| ExponentialBackoff.DelayOfOpening | src/common/circuit_breaker/exponential_backoff_circuit_breaker.ts:41-58 | an error opens a closed breaker with the delay for the errors since the last success and does not prolong an open period |
| ExponentialBackoff.OpenAfterErrorExactly | src/common/circuit_breaker/exponential_backoff_circuit_breaker.ts:41-78 | on every run the breaker is open exactly if the last thing that happened to it was an error |
| ExponentialBackoff.BackoffMultiplies | src/common/circuit_breaker/exponential_backoff_circuit_breaker.ts:90-95 | the first delay is the initial one, each further error multiplies it, and the maximum caps it |
| ExponentialBackoff.BackoffGrows | src/common/circuit_breaker/exponential_backoff_circuit_breaker.ts:90-95 | more errors never give a shorter delay |
| ExponentialBackoff.ExponentialBackoffCircuitBreaker.Open | src/common/circuit_breaker/exponential_backoff_circuit_breaker.ts:51-58 | opens and starts a timer, unless open |
| ExponentialBackoff.ExponentialBackoffCircuitBreaker.Close | src/common/circuit_breaker/exponential_backoff_circuit_breaker.ts:60-69 | closes and clears the recorded timer, unless closed |
| FixedTime.OpenIsTemporary | src/common/circuit_breaker/fixed_time_circuit_breaker.ts:34-65 | on every run an open breaker has seen enough errors since the last success and its recorded timer is running |
| FixedTime.OpenAfterErrorsExactly | src/common/circuit_breaker/fixed_time_circuit_breaker.ts:34-65 | on every run the breaker is open exactly if the last thing that happened to it was an error and enough of them were reported since the last success |
| FixedTime.SignalsFollow | src/common/circuit_breaker/fixed_time_circuit_breaker.ts:41-60 | on every run each opening is signalled, also that of an open breaker, and each closing once |
| FixedTime.ClosesOnTimeExactly | src/common/circuit_breaker/fixed_time_circuit_breaker.ts:34-65 | throughout a run the only timer is that of the last opening, and it runs only while the breaker is open, exactly if no error is reported while `isOpen()` holds |
| FixedTime.StaleTimerClosesEarly | src/common/circuit_breaker/fixed_time_circuit_breaker.ts:41-60 | a run in which the timer of an earlier error closes the breaker |
| FixedTime.FixedTimeCircuitBreaker.Open | src/common/circuit_breaker/fixed_time_circuit_breaker.ts:41-45 | opens and starts a timer without clearing the previous one |
| InlineCompletion.WithoutSelection | src/common/document_transformer_service.ts:135-142 | without a selected completion, accepting an item gives prefix, option text and suffix |
| InlineCompletion.PositionIs | src/common/document_transformer_service.ts:131-142 | in a document given by its lines, a position is that many characters into its line, at most at the end of its content, and below the last line the end of the text |
| InlineCompletion.RangeText | src/common/document_transformer_service.ts:131-142 | the text of a range is what stands between its ends, whichever comes first |
| InlineCompletion.StreamsInsertNothing | src/common/utils/suggestion_mappers.ts:46-56 | accepting the item that starts a stream leaves the document unchanged |
| InlineCompletion.WithSelection | src/common/utils/suggestion_mappers.ts:57-68 | with one, for every range and cursor: exactly if the text between the start of the range and the cursor is what the selected text begins with, and as long as what the mapper drops of it |
| InlineCompletion.FilterIsExact | src/common/suggestion/suggestion_filter.ts:27-39 | for every range on one line of the document and every cursor: a request the mismatch filter lets through is accepted as requested exactly if its range ends at the cursor; one that it rejects would be exactly if the selected text is a proper prefix of what the range holds and ends at the cursor |
| InlineCompletion.FilterDecidesAtCursor | src/common/suggestion/suggestion_filter.ts:27-39 | for a range that ends at the cursor, the item is accepted as requested exactly if the mismatch filter lets the request through |
| InlineCompletion.RangeShortOfCursor | src/common/suggestion/suggestion_filter.ts:27-39 | a range that ends before the cursor passes the filter and still changes the text |
| MessageValidation.SegmentsDecide | packages/lib_rpc_message_validation/src/validators/naming_convention_validator.ts:11-69 | a name has no errors exactly if it is an optional `$/` and camel-case segments joined by `/`; passing the segment check implies passing the character check |
| MessageValidation.ErrorsHaveReasons | packages/lib_rpc_message_validation/src/validators/naming_convention_validator.ts:29-69 | each kind of error is reported exactly for its reason: a character that is no letter or slash after an optional `$/`, an empty segment, a segment not in camel case |
| MessageValidation.LettersAre | packages/lib_rpc_message_validation/src/validators/naming_convention_validator.ts:11-12 | the letters are those of the alphabet |
| MessageValidation.PathIs | packages/lib_rpc_message_validation/src/validators/naming_convention_validator.ts:46-48 | only a leading `$/` is no part of the path |
| MessageValidation.CamelCaseGrows | packages/lib_rpc_message_validation/src/validators/naming_convention_validator.ts:12 | a camel-case segment is a lower-case letter followed by letters |
| MessageValidation.NamingConventionValidator.ValidateSegments | packages/lib_rpc_message_validation/src/validators/naming_convention_validator.ts:43-69 | one error per segment that is empty or not in camel case, in order |
| MessageValidation.DuplicatesCounted | packages/lib_rpc_message_validation/src/validators/duplicate_method_validator.ts:7-24 | there are as many duplicate errors as messages minus distinct names, and none exactly if all names are distinct |
| MessageValidation.DuplicatesInOrder | packages/lib_rpc_message_validation/src/validators/duplicate_method_validator.ts:7-24 | the errors stand, in order, for exactly the messages whose name occurred before |
| MessageValidation.DuplicateMethodValidator.Validate | packages/lib_rpc_message_validation/src/validators/duplicate_method_validator.ts:7-24 | one error per message whose name occurred before, in order |
| MessageValidation.CompositeMessageValidationService.Validate | packages/lib_rpc_message_validation/src/composite_message_validation_service.ts:27-52 | the errors of all collection validators, then those of all message validators message by message |
| MessageValidation.AcceptedExactly | packages/lib_rpc_message_validation/src/composite_message_validation_service.ts:27-52 | with its two validators the service accepts exactly the lists of distinct, well-formed names |
| Text.JoinSplit | packages/lib_rpc_message_validation/src/validators/naming_convention_validator.ts:50 | splitting loses nothing |
| Text.WhitespaceIs | src/common/utils/byte_size.ts:17 | the characters matched by `\s`, by code point |
| Text.VisibleConcat | src/common/advanced_context/advanced_context_filters.ts:33 | a text is visible exactly if one of its characters is not whitespace |
| Text.SplitJoin | packages/lib_rpc_message_validation/src/validators/naming_convention_validator.ts:50 | splitting is the only way to take a joined string apart |
| Fibonacci.FastFibonacciSolver.Solve | packages/lib-pkg-2/src/fast_fibonacci_solver.ts:15-36 | after any history the result is that of the recursive solver, the memo holds exactly the indices up to the last computed one at their values, and that index never decreases |

## Left out

- Containers.Container.Instantiate: an array passed for a collection is a value here; in the source it is the container's own array, so instances added later appear in it, while the array for an interface without instances is never connected.
- Containers.Container.Instantiate: two instances of one class with equal arguments are equal here, and constructors do not throw.
- Streaming.InvariantHolds: one stream is modelled, with its own entry in the map of cancellation handlers; the text of a notification after post-processing is not, nor are the model metadata and HTTP status sent to telemetry.
- Streaming.NeverStuck: a queue task may start at any step after it was added, which includes the moment the queue library starts it.
- DirMatcher.FastDirectoryMatcher.AddPath: URIs are their string forms; percent-decoding and the directory of a file are arbitrary functions, except that decoding the empty string gives it back; decoding errors are not modelled.
- AsyncDebounces.NoCallerIsLost: the timer library is a trailing timer restarted by each call; the passing of time is not modelled.
- SuggestionsCaches.SuggestionsCache.GetCachedSuggestions: the LRU library is a map from which entries may vanish at any time, also during a read; sizes and times to live are not modelled.
- Strings are sequences of Unicode scalar values; lengths in UTF-16 units and lone surrogates are not modelled.
- ByteSize.TruncateNearLimit: a separator is a function to the index of its last match, not a regular expression.
- PreProcessors.ByteSizeLimitPreProcessor.Process: the `catch` branch, which none of the modelled operations can reach.
- MergeRequests.MergeRequestsShareTheBudget: removing the git markers from a diff and the text of the header are not modelled.
- ExponentialBackoff.DelaysNeverDecrease: delays are real numbers, without floating-point rounding; event listeners are a log of the events; the option for the number of errors before breaking is not modelled, since the class never reads it.
- InlineCompletion.FilterIsExact: the text document library is not part of this model; its line starts are taken as given, with line breaks only at the end of a line, and its offsets as clamped before the line break, as in its version 1.0.12.
- InlineCompletion.WithSelection: redaction of secrets in the prefix and suffix, telemetry indices and the array form of ranges.
- Fibonacci.FastFibonacciSolver.Solve: integers are unbounded; non-integer indices are not modelled.
- The texts of error and log messages.
- HTTP, sockets, GraphQL, the LSP connection, webviews, tree-sitter, feature-state checks, configuration and build scripts: input and output, or members that would only be easy.
