# Frona core: a verified model

This project models the parts of Frona whose correctness is hard to see from the code, and proves what they
promise. Every statement below is checked by the Dafny verifier.

| Part | Files | What is proved |
|---|---|---|
| Alignment-tracked text | `Utf8`, `Alignment`, `AlignmentLaws`, `TransformLaws`, `Renormalization`, `NormalizedString`, `Grounding`, `GroundingLaws`, `LineEnding` | every chain of transforms keeps one well-ordered source span per byte, so every match maps back to a sliceable original range; normalising that range again gives the match back; what each transform makes of a text is laid out over its characters; grounded quotes are first occurrences whose raw span contains them |
| Model settings | `JsonPointer`, `ModelAuthoring`, `ModelAuthoringLaws`, `ModelReconciliation`, `ModelRules`, `ModelPatches` | the reconciliation loop only deletes, is idempotent, agrees with the validator both ways up to nulls, and, on a stated condition, returns exactly when nothing is rejected inside an array that stays; rules decide exactly what a round keeps, and values that back each other's rules survive the whole run; diff and server merge are inverse, and combining patches equals applying both, each exactly under a stated condition |
| Live chat client | `SseParser`, `EventBus`, `EventSelection`, `ChatMessages`, `ChatRuns`, `ChatEffects`, `ChatStreaming`, `ChatStore` | chunking never matters, and each payload comes under the event name given for it; over every run a subscriber gets its chat's events in order and each at most once, missing only what a reconnect drops from its queue, and all of them when it is alone and nothing reconnects; placeholders and server rows reconcile without loss; the streamed turn is a simple fold of its events |
| Catalog refresh | `CatalogDocuments`, `CatalogFiles`, `CatalogProtocol`, `CatalogSources` | over every run of failures, cancellations and crashes, what is served is the parse of a validated document, files on disk are whole, the sources do not disturb each other, and a restart serves the published version exactly under a stated condition |
| App manager | `AppPorts`, `AppRestarts`, `AppManager` | in every interleaving of lock sections the holders have distinct ports; leaks are characterised exactly; crash restarts are bounded in every orderly run, and find their process again exactly under a stated condition |
| Accessibility snapshots | `AriaRender`, `AxTree` | compact rendering keeps exactly the actionable lines and their tree ancestors; reference numbering is preorder, and (role, name, nth) identifies a reference |
| Memory graph | `MemoryGraph` | the breadth-first search returns exactly the shortest distances within the bound |

Code that updates state is a class or a loop proved against a specification function (`NormalizedString`,
`SseEventBus`, `ChatStore`, `CatalogSources`, `AppManager`, the search, the renderer); the laws are lemmas about those
functions. The protocols (event bus, chat store, catalog refresh, app manager) are state machines over their steps, and
their results hold for every run. Every inductive proof is written out: all lemmas switch automatic induction off.

## Where the code falls short

- Closing a subscription twice can evict a newer subscriber of the same chat (`EventBus.CleanupStructureIff`,
  `EventBus.SecondCleanupSilences`).
- The reconciliation loop never returns when a setting rejects an element of an array that stays, because reading
  enters arrays and removal does not. The array stays when it is supported, no setting rejects it or an object above
  it in the first round, and settings for those objects accept what deletions leave of them
  (`ModelReconciliation.LoopReturnsIff`, `ModelReconciliation.RejectedElementLoops`).
- Deleting or cutting down an `extra_params` object that is not directly under a model or a fallback is lost
  (`ModelPatches.DiffMergesIff`, `ModelPatches.MisplacedDeletionIsLost`, `ModelPatches.MisplacedEditIsLost`).
- Combined patches differ from applying both in turn exactly when the later one puts an object over a scalar or a
  deletion, or a misplaced `extra_params` object over one that it does not mask (`ModelPatches.CombineMergesIff`).
- A failure that names an earlier message loses the streamed text (`ChatStores.FailureKeepsText`), and an arriving row
  whose text no placeholder has replaces the oldest one (`ChatRuns.StepKeeps`).
- A refresh can write a cache file that no start-up will read (`CatalogDocuments.ReadableIff`,
  `CatalogFiles.UnreadableDocument`), and a newer bundled copy wins over the published one
  (`CatalogProtocol.ReloadsPublishedIff`).
- A failed spawn, or starting an app that still has a process, loses a port for good (`AppPorts.StepLeaks`,
  `AppPorts.LeakIsForever`).
- A stop between putting a restarted process in and restoring its count can leave no process to restore it to, which
  the code takes for impossible (`AppRestarts.RestoreFindsNone`, `AppRestarts.RestoreFindsProcess`).
- Two overlapping crash restarts of one app can exceed the restart limit (`AppRestarts.OverlapExceeds`).

## Model

| member | source | states |
|---|---|---|
| `Alignment.ChainAligned` | crates/frona-text/src/normalized_string.rs:37-310 | after `from` and any chain of transforms, every span has ordered ends on original character boundaries, and starts and ends never decrease |
| `Alignment.ComposeAligned` | crates/frona-text/src/normalized_string.rs:104-158 | NFKC keeps alignment for any stream that consumes no more than the text, insertions and absorptions included |
| `Alignment.FlatMapAligned` | crates/frona-text/src/normalized_string.rs:191-257 | any per-character expansion, filter or fold keeps alignment, and owns nothing past its source |
| `Alignment.CollapseAligned` | crates/frona-text/src/normalized_string.rs:263-310 | collapsing keeps alignment although it extends spans already emitted |
| `AlignmentLaws.SpliceSliceable` | crates/frona-text/src/normalized_string.rs:78-99 | a range is refused exactly when reversed or out of bounds; every other one gives an original range on character boundaries |
| `AlignmentLaws.SpliceChars` | crates/frona-text/src/normalized_string.rs:78-99 | on whole characters the original range runs from the first character's start to the last one's end |
| `AlignmentLaws.SpliceEmpty` | crates/frona-text/src/normalized_string.rs:78-99 | an empty range splices at the start of the character behind it, or at the end of the original |
| `AlignmentLaws.ChainGapFree` | crates/frona-text/src/normalized_string.rs:104-310 | without filtering, spans start at 0, end at the original length and leave no byte between neighbours, for every chain |
| `AlignmentLaws.SpliceCovers` | crates/frona-text/src/normalized_string.rs:78-99 | the whole normalised text splices to the whole original, and adjacent ranges lose no byte |
| `TransformLaws.CollapseShows` | crates/frona-text/src/normalized_string.rs:263-310 | the collapsed cells are the maximal whitespace runs, one space each, and every other character as it is, in order and without remainder, each with the span of all it stands for |
| `TransformLaws.CollapseSpaces` | crates/frona-text/src/normalized_string.rs:263-310 | the collapsed text holds no whitespace but spaces, and no two of them in a row |
| `TransformLaws.FlatMapShows` | crates/frona-text/src/normalized_string.rs:216-257 | every character becomes its expansion, in order, each character of it with the span of the one it came from |
| `TransformLaws.RetainShows` | crates/frona-text/src/normalized_string.rs:221-236 | exactly the accepted characters stay, in order, with their spans |
| `TransformLaws.SingleMap` | crates/frona-text/src/normalized_string.rs:191-211 | a fold changes the character of each cell and nothing else |
| `TransformLaws.ComposeShows` | crates/frona-text/src/normalized_string.rs:104-158 | every stream item owns the one character it stands for and those it absorbs, one item after the other; an inserted one has its predecessor's span |
| `Renormalization.RenormalizeSlice` | crates/frona-text/src/normalized_string.rs:191-310 | for any folds then collapse, normalising the original slice of any non-empty range gives exactly that range's text |
| `Renormalization.RenormalizeContains` | crates/frona-text/src/normalized_string.rs:216-257 | for any case folding then filter, the normalised raw span contains the matched text, at a computed offset |
| `Renormalization.FlatMapFuse` | crates/frona-text/src/normalized_string.rs:238-257 | two per-character passes are one pass, spans included |
| `Renormalization.CollapseText` | crates/frona-text/src/normalized_string.rs:263-310 | the collapsed text depends on the text alone, not on spans |
| `Renormalization.RunOf` | crates/frona-text/src/normalized_string.rs:263-310 | each collapsed character owns exactly one maximal run of the text it came from |
| `NormalizedText.NormalizedString.From` | crates/frona-text/src/normalized_string.rs:37-50 | each byte owns its own character's range |
| `NormalizedText.NormalizedString.SpliceRangeOriginal` | crates/frona-text/src/normalized_string.rs:78-99 | computes the specified range from the stored spans, refuses exactly the bad ranges, and its result can be sliced |
| `NormalizedText.NormalizedString.NfkcChars` | crates/frona-text/src/normalized_string.rs:104-158 | the stored text and spans are those of the NFKC specification |
| `NormalizedText.NfkcLoop` | crates/frona-text/src/normalized_string.rs:104-158 | the byte-position loop stores exactly the specified cells |
| `NormalizedText.NextItem` | crates/frona-text/src/normalized_string.rs:115-145 | one stream item advances by what it consumes and takes the hull of it, or the previous span when inserted |
| `NormalizedText.Hull` | crates/frona-text/src/normalized_string.rs:135-142 | the least start and greatest end over a byte range |
| `NormalizedText.FoldTables` | crates/frona-text/src/normalized_string.rs:162-186 | the three folds change exactly the listed characters, single and double quotes apart |
| `NormalizedText.NormalizedString.AsciiQuotes` | crates/frona-text/src/normalized_string.rs:162-168 | folds exactly the listed quotes and keeps spans |
| `NormalizedText.NormalizedString.AsciiDashes` | crates/frona-text/src/normalized_string.rs:171-177 | folds exactly the listed dashes and keeps spans |
| `NormalizedText.NormalizedString.AsciiSpaces` | crates/frona-text/src/normalized_string.rs:181-186 | folds exactly the listed spaces and keeps spans |
| `NormalizedText.NormalizedString.MapChars` | crates/frona-text/src/normalized_string.rs:191-211 | maps every character and keeps its span, whatever the byte lengths |
| `NormalizedText.MapLoop` | crates/frona-text/src/normalized_string.rs:191-211 | the loop over byte positions stores the mapped cells |
| `NormalizedText.NormalizedString.RetainChars` | crates/frona-text/src/normalized_string.rs:221-236 | keeps exactly the accepted characters of the old cells, in order, with their spans |
| `NormalizedText.RetainLoop` | crates/frona-text/src/normalized_string.rs:221-236 | the loop stores the filtered cells |
| `NormalizedText.NormalizedString.FlatMapChars` | crates/frona-text/src/normalized_string.rs:216-257 | every emitted character owns the span of the character it came from |
| `NormalizedText.FlatMapLoop` | crates/frona-text/src/normalized_string.rs:238-257 | the nested loop stores the expanded cells |
| `NormalizedText.NormalizedString.CollapseWhitespaceRuns` | crates/frona-text/src/normalized_string.rs:263-310 | the stored text has single spaces only, and its cells are the runs of the old ones, each with the span of its run |
| `NormalizedText.CollapseLoop` | crates/frona-text/src/normalized_string.rs:263-310 | the loop that rewrites earlier spans stores the collapsed cells, single-spaced |
| `NormalizedText.CollapseStep` | crates/frona-text/src/normalized_string.rs:273-305 | the text grows by the character, or by a space for the first whitespace of a run, or not at all, when the last span is extended |
| `NormalizedText.ExtendTail` | crates/frona-text/src/normalized_string.rs:280-285 | the in-place loop raises the end of exactly the last emitted bytes' spans to cover what is absorbed, and nothing before them |
| `Grounding.GroundingText.New` | crates/frona-text/src/grounding.rs:25-37 | the comparison stream is NFKC, case folding and filtering of the text, with its letters and numbers counted |
| `GroundingLaws.CompactKeeps` | crates/frona-text/src/grounding.rs:25-37 | the comparison stream holds exactly the letters, numbers and marks of the case-folded NFKC stream, in order |
| `GroundingLaws.SubstantivePlaces` | crates/frona-text/src/grounding.rs:28-32 | what is counted are exactly the letters and numbers |
| `Grounding.GroundingText.Resolve` | crates/frona-text/src/grounding.rs:47-53 | no match for a quote without letters or numbers; otherwise the first occurrence, or none exactly when there is none |
| `Grounding.GroundingText.ResolveCompact` | crates/frona-text/src/grounding.rs:65-82 | the match is the first occurrence in the comparison stream and its raw span is the original slice |
| `Grounding.Find` | crates/frona-text/src/grounding.rs:66-70 | the loop finds the specified index |
| `Grounding.FirstIndexIs` | crates/frona-text/src/grounding.rs:66-70 | which is the first occurrence, and none only when there is none |
| `Grounding.LocatedResolves` | crates/frona-text/src/grounding.rs:65-82 | mapping it back always succeeds, with a sliceable raw range |
| `GroundingLaws.RawSpanContainsQuote` | crates/frona-text/src/grounding.rs:65-82 | wherever NFKC treats the raw span by itself as inside the text, composed accents and ligatures included, the raw span's own comparison stream contains the quote |
| `GroundingLaws.PlainSplits` | crates/frona-text/src/grounding.rs:65-82 | in particular where NFKC leaves text and raw span alone |
| `LineEndings.ApplyJoinsLines` | crates/frona-text/src/line_ending.rs:20-26 | the three replacements amount to joining the text's lines with the terminator |
| `LineEndings.ApplyLastWins` | crates/frona-text/src/line_ending.rs:20-26 | `a.apply(b.apply(s)) == a.apply(s)` for all endings and texts |
| `LineEndings.ApplyUniform` | crates/frona-text/src/line_ending.rs:20-26 | no CR under Lf; CR and LF only as pairs under Crlf |
| `LineEndings.DetectIff` | crates/frona-text/src/line_ending.rs:8-18 | any text is detected as Crlf exactly when it has an LF and the first one follows a CR |
| `LineEndings.DetectApplied` | crates/frona-text/src/line_ending.rs:8-18 | a Crlf result is detected as Crlf exactly when the text had a line break |
| `JsonPointer.EscapeRoundTrip` | web/src/lib/model-authoring.ts:9 | unescaping undoes escaping and no separator is left in a key (section 4 of RFC 6901) |
| `JsonPointer.PointerExtend` | web/src/lib/provider-drafts.ts:89-97 | appending an escaped key to a pointer appends the key to its parse |
| `JsonPointer.ReadIsPath` | web/src/lib/provider-drafts.ts:89-97 | what can be read without entering an array is an object path, which removal can reach |
| `JsonPointer.ArrayReads` | web/src/lib/provider-drafts.ts:89-97 | reading enters an array under the decimals of its indices without leading zeros, and its length, and nothing else |
| `JsonPointer.PruneAfterRemove` | web/src/lib/model-authoring.ts:20-29 | removing pointers one at a time is pruning them together, in any order |
| `JsonPointer.PrunePaths` | web/src/lib/model-authoring.ts:20-29 | a path survives exactly when no prefix of it was removed |
| `ModelAuthoring.FindInvalid` | web/src/lib/model-authoring.ts:178-195 | the two-stage search for invalid paths computes the specified set |
| `ModelAuthoring.InvalidIsPath` | web/src/lib/model-authoring.ts:178-195 | every invalid path exists in the group, or enters an array |
| `ModelAuthoring.RoundProgress` | web/src/lib/model-authoring.ts:177-198 | a round with something invalid strictly shrinks the set of paths |
| `ModelAuthoring.RemoveAll` | web/src/lib/model-authoring.ts:197 | a round's removals, in any order, prune the group by all of them |
| `ModelRules.RuleMeaning` | web/src/lib/model-authoring.ts:107-113 | `all` of nothing holds and `any` of nothing does not; one more condition restricts, one more alternative widens, `not` negates |
| `ModelRules.EffectiveOrder` | web/src/lib/model-authoring.ts:98-105 | a raw override counts before the stored value, a stored value that is no null before the default, all of the first setting at the path |
| `ModelRules.EffectiveUnknown` | web/src/lib/model-authoring.ts:98-105 | at a path of no setting, only a stored value that is no null counts |
| `ModelRules.UnsupportedExact` | web/src/lib/model-authoring.ts:124-135 | unsupported are exactly the values that no typed path covers, under keys that are neither fixed nor managed |
| `ModelRules.RulesDecide` | web/src/lib/model-authoring.ts:189-197 | once types are settled, a round keeps a value exactly when every setting stored at or above it is applicable |
| `ModelRules.FailedConditionDeletes` | web/src/lib/model-authoring.ts:189-197 | then a value with a failed condition of `all` is gone from the reconciled group |
| `ModelRules.SettledRules` | web/src/lib/model-authoring.ts:189-197 | in a settled group every stored value has all its conditions met, or one of its alternatives |
| `ModelRules.BackedSurvive` | web/src/lib/model-authoring.ts:174-199 | accepted, supported values each of whose rules has an alternative satisfied by another of them all survive the whole reconciliation, with their values |
| `ModelRules.TouchedIff` | web/src/lib/model-authoring.ts:150-161 | a reserved field is touched exactly when all its keys are there, or those up to a value that is no object |
| `ModelAuthoringLaws.ReconciledLaws` | web/src/lib/model-authoring.ts:174-199 | the result only lacks paths of the input and is a fixed point |
| `ModelAuthoringLaws.StableMeansValid` | web/src/lib/model-authoring.ts:137-171 | with nothing invalid, the validator reports only reserved fields exactly when no rejected null lies where a round does not look for nulls |
| `ModelAuthoringLaws.ValidMeansStable` | web/src/lib/model-authoring.ts:137-171 | conversely, what the validator accepts has nothing invalid exactly when no null at a typed path is inapplicable, or rejected among the extra parameters |
| `ModelAuthoringLaws.ReconciledKeeps` | web/src/lib/model-authoring.ts:124-135 | identity, routing and managed keys that no setting owns survive with their values |
| `ModelReconciliation.AcceptedReturns` | web/src/lib/model-authoring.ts:177-198 | the loop settles with nothing invalid when no setting rejects what it reads, and none has a rule, inside an array that is supported and that no setting for it or for an object above it rejects |
| `ModelReconciliation.RejectedLoops` | web/src/lib/model-authoring.ts:177-198 | it never returns when a setting rejects such an element and settings for the objects above it accept whatever deletions leave of them, whatever else changes from round to round |
| `ModelReconciliation.LoopReturnsIff` | web/src/lib/model-authoring.ts:177-198 | so, on a condition of group and protocol alone, it returns exactly when no such element is rejected; what the first round rejects as a whole is decided by that |
| `ModelReconciliation.ArrayFreeReturns` | web/src/lib/model-authoring.ts:177-198 | in particular when no setting path enters an array |
| `ModelReconciliation.RejectedElementLoops` | web/src/lib/model-authoring.ts:177-198 | a concrete group on which it does not return |
| `ModelReconciliation.FirstRoundDeletes` | web/src/lib/model-authoring.ts:177-198 | an array that is unsupported, or rejected itself or with an object above it, is gone after the loop |
| `ModelReconciliation.ReconciledIsValid` | web/src/lib/model-authoring.ts:137-199 | on every group on which the rounds end, the reconciled group passes the validator but for reserved fields, unless the group held a rejected null that no round looks at |
| `ModelReconciliation.ReconcileModelSettings` | web/src/lib/model-authoring.ts:174-199 | unchanged without an available protocol or settings; otherwise, on every group on which the rounds end, returns the settled group with nothing invalid |
| `ModelPatches.DiffMergesIff` | web/src/lib/model-authoring.ts:31-44 | for all configurations: merging the computed patch gives the edited one, up to nulls and an empty `extra_params`, exactly when every raw value sent overwrites what the server has |
| `ModelPatches.OverwritesIff` | crates/frona-server/src/core/config/document.rs:242-280 | a value merged over another comes out unchanged exactly when it is raw or a scalar, or has no null, all the other's keys, and so on below |
| `ModelPatches.PlacedSurvives` | crates/frona-server/src/core/config/document.rs:290-297 | nothing is lost where `extra_params` occurs only in a model or a fallback |
| `ModelPatches.MisplacedDeletionIsLost` | web/src/lib/model-authoring.ts:36 | a non-empty `extra_params` object deleted elsewhere comes back |
| `ModelPatches.MisplacedEditIsLost` | web/src/lib/model-authoring.ts:38 | and a setting removed from a model group of that name comes back |
| `ModelPatches.CombineMerges` | web/src/lib/model-authoring.ts:46-50 | applying compatible combined patches is applying them in turn, on every base |
| `ModelPatches.MasksMerge` | web/src/lib/model-authoring.ts:48 | where the later patch masks the earlier one, applying it alone is applying both |
| `ModelPatches.IncompatibleDiffer` | web/src/lib/model-authoring.ts:46-50 | incompatible ones differ on some base, which the lemma returns |
| `ModelPatches.CombineMergesIff` | web/src/lib/model-authoring.ts:46-50 | so compatibility is exact, misplaced raw objects included |
| `SseParser.ChunkConcat` | web/src/lib/sse-event-bus.ts:285-304 | from any state, two chunks leave the state their concatenation leaves |
| `SseParser.ChunkingIndependent` | web/src/lib/sse-event-bus.ts:279-305 | however the text is cut, the routed events are those of parsing it line by line |
| `SseParser.LinesRoute` | web/src/lib/sse-event-bus.ts:291-303 | the routed events are exactly the data lines that parse, in order, each under the trimmed name of the last event line since the data line before it, or none |
| `SseParser.ChunksRoute` | web/src/lib/sse-event-bus.ts:279-305 | so in every chunking, over the complete lines of the whole text |
| `SseParser.SplitIsLines` | web/src/lib/sse-event-bus.ts:288 | the lines are what lies between line feeds |
| `SseParser.StreamParser.Receive` | web/src/lib/sse-event-bus.ts:285-304 | the loop over lines updates buffer, event name and routed events as specified |
| `EventBus.RunDelivers` | web/src/lib/sse-event-bus.ts:85-215 | over every legal run the structure holds (a pending read has an empty queue, a buffer has no subscriber), and without reconnect each iterator holds a contiguous stretch of its chat's events |
| `EventBus.ExactlyOnce` | web/src/lib/sse-event-bus.ts:85-195 | with one subscriber per chat, values yielded, queued and buffered are all events dispatched, in order |
| `EventBus.CleanupStructureIff` | web/src/lib/sse-event-bus.ts:136-140 | a cleanup keeps the structure exactly when it does not evict a newer subscriber set |
| `EventBus.SecondCleanupSilences` | web/src/lib/sse-event-bus.ts:136-140 | a concrete second cleanup leaves a live subscriber unreachable |
| `EventBus.ReconnectDropsQueuesOnly` | web/src/lib/sse-event-bus.ts:203-215 | a reconnect empties the queues of live iterators and leaves every other field of every iterator, waiting reads included, and all buffers and sets |
| `EventBus.WaitingReadSurvives` | web/src/lib/sse-event-bus.ts:115-134 | a read that waits at a reconnect gets the next event of its chat |
| `EventSelection.RunSelects` | web/src/lib/sse-event-bus.ts:85-215 | over every legal run with reconnects, what an iterator yielded is its chat's events from its first one on, in order and each once, except those dropped from its queue at a reconnect |
| `EventBus.SseEventBus.Open` | web/src/lib/sse-event-bus.ts:88-134 | takes over the chat's buffer and joins its subscriber set |
| `EventBus.SseEventBus.DispatchChat` | web/src/lib/sse-event-bus.ts:174-195 | reaches every subscriber of the chat, or else the buffer |
| `EventBus.SseEventBus.Read` | web/src/lib/sse-event-bus.ts:145-153 | takes the oldest queued event, ends, or leaves a pending read |
| `EventBus.SseEventBus.Close` | web/src/lib/sse-event-bus.ts:136-157 | ends the iterator; the structure survives exactly when nothing newer is evicted |
| `EventBus.SseEventBus.NotifySubscribersReconnect` | web/src/lib/sse-event-bus.ts:203-215 | the loops empty the queues of live iterators and change no other field, no set and no buffer; the structure stays |
| `ChatMessages.ClaimsExact` | web/src/lib/chat-store.ts:252-283 | for every content, exactly min(placeholders, new user rows) placeholders are claimed |
| `ChatMessages.ClaimsOneToOne` | web/src/lib/chat-store.ts:270-278 | no row claims two placeholders |
| `ChatMessages.MergeConserves` | web/src/lib/chat-store.ts:252-283 | exactly those disappear, every new row is added, every other message stays as often as it was |
| `ChatRuns.StepKeeps` | web/src/lib/chat-store.ts:227-545 | every send, load, older page, event and failure keeps ids distinct and persisted messages, and pairs each placeholder that goes with a newly added user row: of its text after a load; after an arriving row of its text, or the first placeholder when none has the row's text |
| `ChatRuns.RunKeeps` | web/src/lib/chat-store.ts:227-545 | between any two states of any run: ids distinct, no persisted message gone, every placeholder that went is paired, and pairs lead one to one to rows added in between |
| `ChatEffects.StepEffects` | web/src/lib/chat-store.ts:227-545 | what each step puts in and leaves, message by message: a send and a new row are added, a row takes the place of its id or of a placeholder, a page adds the rows of unknown ids, everything else stays as often as it was |
| `ChatEffects.StoredOnce` | web/src/lib/chat-store.ts:420-507 | a stored message is there exactly once, no older version of it is, and every other message is there as often as before |
| `ChatStreaming.StreamIsFold` | web/src/lib/chat-store.ts:349-409 | text, snapshot and calls equal the fold of the events since the last clear: non-empty segments joined by a blank line, each call with its trimmed segment |
| `ChatStreaming.RunningIff` | web/src/lib/chat-store.ts:349-409 | a turn is running exactly when anything but a tool's result came since the last clear |
| `ChatStreaming.ReasoningIs` | web/src/lib/chat-store.ts:349-409 | the reasoning is all that arrived since the last clear, in order |
| `ChatStreaming.TrimCuts` | web/src/lib/chat-store.ts:376-384 | what a call shows is cut of all whitespace at either end, and of nothing else |
| `ChatStreaming.PutReplaces` | web/src/lib/chat-store.ts:376-396 | a call whose id is known takes its place |
| `ChatStreaming.ResultsAreFifo` | web/src/lib/chat-store.ts:397-409 | results go to same-named calls in first-in first-out order, call ids that repeat included |
| `ChatStreaming.NoStrayResults` | web/src/lib/chat-store.ts:397-409 | every result belongs to a call of the turn, in every turn |
| `ChatStreaming.IdleIsEmpty` | web/src/lib/chat-store.ts:781-795 | a store that is not running has no streamed state |
| `ChatStores.FindFree` | web/src/lib/chat-store.ts:274-276 | the first unclaimed placeholder with that content |
| `ChatStores.ClaimPlaceholders` | web/src/lib/chat-store.ts:270-278 | the loop claims the specified placeholders |
| `ChatStores.MergeFetched` | web/src/lib/chat-store.ts:252-283 | the merge of a batch into a non-empty store |
| `ChatStores.FailureKeepsText` | web/src/lib/chat-store.ts:759-779 | a failure while streaming keeps the streamed text, whatever it is, exactly when it names no displayed message or the one that shows the stream |
| `ChatStores.FailureIs` | web/src/lib/chat-store.ts:759-779 | the failed message has the reported id, or else that of a last executing agent message, or else a new one |
| `ChatStores.ChatStore.AddUserMessage` | web/src/lib/chat-store.ts:227-238 | appends the placeholder and starts running |
| `ChatStores.ChatStore.LoadMessages` | web/src/lib/chat-store.ts:240-311 | a failed fetch changes no message; a fetch merges, up to order; the turn runs on, with all its text, exactly when the last row is executing or a send is not echoed yet, and is cleared otherwise |
| `ChatStores.ChatStore.LoadOlder` | web/src/lib/chat-store.ts:313-335 | adds the unknown rows of the page, up to order, and leaves the stream alone |
| `ChatStores.ChatStore.OnStreamEvent` | web/src/lib/chat-store.ts:349-417 | the handler's field updates are the specified event step |
| `ChatStores.ChatStore.OnChatMessage` | web/src/lib/chat-store.ts:509-545 | replaces a known row or the matching placeholder, or appends |
| `ChatStores.ChatStore.OnSettled` | web/src/lib/chat-store.ts:420-507 | a finished or paused turn stores its row in the place of its id, or behind the others, leaves every other row, and clears the stream |
| `ChatStores.ChatStore.OnResume` | web/src/lib/chat-store.ts:450-473 | a resumed turn stores its row in the place of a known id, and leaves every other row |
| `ChatStores.ChatStore.FailMessage` | web/src/lib/chat-store.ts:759-779 | the failed message is stored under its id, every other row stays, as a step the run results cover, and the stream clears |
| `ChatStores.ChatStore.ClearStreaming` | web/src/lib/chat-store.ts:781-795 | clears exactly the streamed state |
| `CatalogDocuments.FetchedIs` | crates/frona-model-catalog/src/sources.rs:334-371 | a response gives the document it stands for, header by header: its own etag and date, the previous ones on a 304 only, the previous text or the whole body decoded; or the one error that applies |
| `CatalogDocuments.ValidateExact` | crates/frona-model-catalog/src/sources.rs:82-101 | validation accepts exactly the documents of right source, size and digest that parse, and gives their parse with their time |
| `CatalogDocuments.JoinedConcat` | crates/frona-model-catalog/src/sources.rs:342-348 | chunks are joined in order |
| `CatalogDocuments.NotModifiedSucceeds` | crates/frona-model-catalog/src/sources.rs:336-371 | a 304 with a valid previous document always yields a valid document with the same text and the new time; without one it fails |
| `CatalogDocuments.DownloadFailsInParsingOnly` | crates/frona-model-catalog/src/sources.rs:339-372 | a downloaded body never fails the identity, size or digest check |
| `CatalogDocuments.LoadSelectsNewest` | crates/frona-model-catalog/src/sources.rs:145-187 | the newest valid candidate, the cache on a tie, none exactly when none is valid |
| `CatalogDocuments.LoadReports` | crates/frona-model-catalog/src/sources.rs:145-181 | what is reported at start-up is what is wrong with the cache file, or else with the bundled one |
| `CatalogDocuments.WrittenIsReloadedIff` | crates/frona-model-catalog/src/sources.rs:155-181 | a written document is selected from the cache exactly when its file fits the read limit and no bundled copy is newer |
| `CatalogDocuments.ReadableIff` | crates/frona-model-catalog/src/sources.rs:387-401 | for every text, the file fits exactly when its plain bytes leave room for the header and the four-digit escapes |
| `CatalogFiles.FilesApart` | crates/frona-model-catalog/src/sources.rs:387-401 | the written form tells all documents apart, whatever their fields contain |
| `CatalogFiles.LargestMayBeUnreadable` | crates/frona-model-catalog/src/sources.rs:156-161 | reading refuses every document as large as allowed with fewer plain bytes than the header takes |
| `CatalogFiles.UnreadableDocument` | crates/frona-model-catalog/src/sources.rs:156-161 | one that validation accepts and writing encodes faithfully, and no start-up reads |
| `CatalogProtocol.LoadEstablishes` | crates/frona-model-catalog/src/sources.rs:142-212 | from any files, start-up serves only parses of validated documents |
| `CatalogProtocol.StepIsLocal` | crates/frona-model-catalog/src/sources.rs:298-384 | a step of one source leaves the other's catalog, record, phase and visible file unchanged |
| `CatalogProtocol.StepKeeps` | crates/frona-model-catalog/src/sources.rs:298-401 | every step keeps: served catalogs are parses of validated documents, and phases agree with the disk |
| `CatalogProtocol.RunKeeps` | crates/frona-model-catalog/src/sources.rs:142-401 | so in every run from every start-up |
| `CatalogProtocol.RunServesAuthentic` | crates/frona-model-catalog/src/sources.rs:142-401 | in every run from every start-up, the document behind what is served has the right source, size and digest, and what is served is what its text holds |
| `CatalogProtocol.RunFilesWhole` | crates/frona-model-catalog/src/sources.rs:387-401 | in every run, every version of a file that a crash can leave, whichever renames were not yet synced, is an earlier file or one whole validated document the run wrote |
| `CatalogProtocol.RenameIsUnsettled` | crates/frona-model-catalog/src/sources.rs:387-401 | between rename and sync a crash may leave the new file or any it could leave before |
| `CatalogProtocol.SyncSettles` | crates/frona-model-catalog/src/sources.rs:387-401 | after the sync it leaves what readers saw |
| `CatalogProtocol.FailureKeepsService` | crates/frona-model-catalog/src/sources.rs:298-315 | however far a refresh gets before failing, catalog, document and origin stay |
| `CatalogProtocol.ReloadsPublishedIff` | crates/frona-model-catalog/src/sources.rs:142-384 | after a success, any run without a newer write, and a crash, the published version is served from the cache exactly when its file fits and no bundled copy is newer |
| `CatalogService.ReadBody` | crates/frona-model-catalog/src/sources.rs:342-348 | the body in any chunking, refused exactly when too large or broken off |
| `CatalogService.Fetch` | crates/frona-model-catalog/src/sources.rs:334-371 | the document that the response stands for, etag and date each in its own field, or the one error that applies |
| `CatalogService.RefreshRuns` | crates/frona-model-catalog/src/sources.rs:298-384 | the protocol's steps, undisturbed, make exactly what the call makes |
| `CatalogService.RefreshedIff` | crates/frona-model-catalog/src/sources.rs:298-384 | a refresh ends without an error exactly when the response stands for an acceptable document and saving it succeeds |
| `CatalogService.CatalogSources.constructor` | crates/frona-model-catalog/src/sources.rs:142-212 | the loaded state is the specified one and satisfies the invariant |
| `CatalogService.CatalogSources.RefreshFrom` | crates/frona-model-catalog/src/sources.rs:298-384 | equals the run of its steps; succeeds exactly when the response is usable and saved; an error keeps the service and is recorded; a success records the response's document with its headers, serves the parse of its text and has it durably on disk; the other source is untouched |
| `AppPorts.FirstFree` | crates/frona-server/src/app/manager.rs:302-311 | the least unallocated port, or none exactly when the range is full |
| `AppPorts.StepKeepsPorts` | crates/frona-server/src/app/manager.rs:68-123 | every lock section keeps the correspondence between allocated ports and their holders |
| `AppPorts.PortSafety` | crates/frona-server/src/app/manager.rs:68-255 | in every interleaving, processes, starts, restarts and stops in flight hold distinct ports of the range, all allocated |
| `AppPorts.FreedIsUnheld` | crates/frona-server/src/app/manager.rs:112-123 | a port that leaves the set is held by nobody |
| `AppPorts.AllocatedIsHeldOrLeaked` | crates/frona-server/src/app/manager.rs:68-255 | the allocated set is the held ports and the leaked ones, disjoint |
| `AppPorts.StepLeaks` | crates/frona-server/src/app/manager.rs:77-110 | a step leaks a port exactly when a spawn fails on it, or a process is put in where the app still has the one on it |
| `AppPorts.FailedSpawnLeaks` | crates/frona-server/src/app/manager.rs:77-88 | a first start whose spawn fails leaks its port in every later run |
| `AppPorts.LeakIsForever` | crates/frona-server/src/app/manager.rs:68-123 | no later run returns a leaked port |
| `AppRestarts.RestartsBounded` | crates/frona-server/src/app/manager.rs:191-248 | crash restarts since the last explicit start never exceed the maximum when restarts of one app do not overlap |
| `AppRestarts.OrderlyBounded` | crates/frona-server/src/app/manager.rs:191-248 | nor when they overlap, as long as none is counted while another's count is to be restored, and only the last counted restores one |
| `AppRestarts.OneAtATimeIsOrderly` | crates/frona-server/src/app/manager.rs:191-248 | which is weaker than not overlapping |
| `AppRestarts.OverlapExceeds` | crates/frona-server/src/app/manager.rs:231-243 | an overlapping run that exceeds it |
| `AppRestarts.CountsOnce` | crates/frona-server/src/app/manager.rs:196-229 | only a due crash below the maximum makes a restart, which raises the count of the process by one |
| `AppRestarts.CountCarried` | crates/frona-server/src/app/manager.rs:231-243 | the restart keeps that count until it restores it to the process it finds |
| `AppRestarts.ProcessThereIff` | crates/frona-server/src/app/manager.rs:68-123 | after any run an app has a process exactly when it had one, or a step put one in, that no later step stopped |
| `AppRestarts.RestoreFindsProcess` | crates/frona-server/src/app/manager.rs:237-242 | whatever runs between putting a restarted process in and restoring its count, a process is there exactly when none was stopped since, or one was put in after the last stop |
| `AppRestarts.RestoreFindsNone` | crates/frona-server/src/app/manager.rs:237-242 | a concrete run from the start after which the count is to be restored and the app has no process, which the code takes for impossible |
| `AppRestarts.StopBeforeRestore` | crates/frona-server/src/app/manager.rs:237-242 | from every such state, a stop of the app alone leads to one without a process |
| `AppManagers.StartIs` | crates/frona-server/src/app/manager.rs:68-110 | the lock sections of a start make exactly the specified state |
| `AppManagers.RestartIs` | crates/frona-server/src/app/manager.rs:191-248 | the lock sections of a crash restart are a stop and a start that keeps the count, or nothing |
| `AppManagers.AppManager.AllocatePort` | crates/frona-server/src/app/manager.rs:302-311 | the loop finds and marks the least free port |
| `AppManagers.AppManager.StartApp` | crates/frona-server/src/app/manager.rs:68-110 | fails for lack of ports exactly when the range is full; else marks one free port of the range, which the new process has; no other process changes; keeps the port invariant |
| `AppManagers.AppManager.StopApp` | crates/frona-server/src/app/manager.rs:112-123 | removes the process and frees its port, and no other; keeps the port invariant |
| `AppManagers.AppManager.TryRestartCrashed` | crates/frona-server/src/app/manager.rs:191-248 | nothing unless due and below the maximum; then the old process goes with its port, and the new one has a free port and one restart more |
| `MemoryGraph.NeighborhoodByDepth` | web/src/lib/memory-graph.ts:37-62 | exactly the nodes within the bound, each with its shortest distance, for every edge list |
| `MemoryGraph.BuildAdjacency` | web/src/lib/memory-graph.ts:42-48 | the map holds exactly the undirected neighbours |
| `MemoryGraph.WalkRecorded` | web/src/lib/memory-graph.ts:49-61 | every walk within the bound ends at a recorded node no deeper than its length |
| `AriaRender.Visit` | crates/frona-browser/src/aria/render.rs:98-143 | the recursive renderer writes the lines of the node's outline |
| `AriaRender.NodeDrawn` | crates/frona-browser/src/aria/render.rs:98-143 | a node is one line with its key and the sole text it holds; otherwise its properties and then its children but empty texts lie right below it, each once and in order, with the cursor mark on the first pointer node of a path only |
| `AriaRender.ChildDrawn` | crates/frona-browser/src/aria/render.rs:98-143 | below a child's line lies what is drawn for that child, so at every depth |
| `AriaRender.LineReads` | crates/frona-browser/src/aria/render.rs:98-143 | every line is two spaces for each line it lies below, a dash and its text |
| `AriaRender.IndentsAreLevels` | crates/frona-browser/src/aria/render.rs:98-143 | a line's indentation is its depth in the outline |
| `AriaRender.CoversIsAncestor` | crates/frona-browser/src/aria/render.rs:23-32 | the backward indentation scan stops at exactly the tree ancestors |
| `AriaRender.MarkAbove` | crates/frona-browser/src/aria/render.rs:22-32 | the inner loop marks the line and exactly what the scan covers |
| `AriaRender.ActionableIff` | crates/frona-browser/src/aria/render.rs:19-22 | a line is actionable exactly when a reference number or a colon and a space stand anywhere in it |
| `AriaRender.Compact` | crates/frona-browser/src/aria/render.rs:10-43 | the lines are exactly those kept by indentation, in order |
| `AriaRender.CompactKeepsAncestors` | crates/frona-browser/src/aria/render.rs:10-43 | a rendered line is kept exactly when actionable or the ancestor of an actionable one |
| `AriaRender.CompactIdempotent` | crates/frona-browser/src/aria/render.rs:10-43 | compacting twice is compacting once, on any lines |
| `AriaRender.RenderAriaTree` | crates/frona-browser/src/aria/render.rs:45-89 | the whole rendering, compacted or not |
| `AxTree.ConvertNode` | crates/frona-browser/src/aria/axtree.rs:55-105 | the numbered nodes of the converted tree, in preorder, are the new references at their own positions; the tree mirrors the node's roles, names and children at every depth; nothing exactly for skipped nodes |
| `AxTree.CollectChildren` | crates/frona-browser/src/aria/axtree.rs:107-130 | the same over a child list: texts inlined, nodes converted, nothing for dangling ids, blank texts and ignored nodes without a role |
| `AxTree.AppearsIff` | crates/frona-browser/src/aria/axtree.rs:107-130 | an entry leaves nothing exactly when it is dangling, a blank text, or ignored without a role |
| `AxTree.MirrorsTidy` | crates/frona-browser/src/aria/axtree.rs:55-130 | in what mirrors a tree, texts are inlined and never blank, at every depth |
| `AxTree.Extract` | crates/frona-browser/src/aria/axtree.rs:26-53 | a snapshot numbers its interactive nodes 0 to refs-1 in preorder, mirrors the tree below the root, and holds no text node and no blank text |
| `AxTree.NthCountsEarlier` | crates/frona-browser/src/aria/axtree.rs:83-97 | `nth` is the number of earlier references with the same role and name |
| `AxTree.IdentityUnique` | crates/frona-browser/src/aria/axtree.rs:83-97 | no two references share role, name and nth |
| `AxTree.ResolveAgain` | crates/frona-browser/src/ops/interact.rs:106-111 | on an unchanged tree, re-resolution finds the same reference |

## Left out

- Unicode tables: NFKC, case folding and the letter, number and mark categories are parameters; NFKC is any stream that consumes its input exactly, and for gap freedom case folding must not erase a character. Byte lengths are those of section 3 of RFC 3629.
- NormalizedText.NormalizedString.From: original texts of four gigabytes and more, whose offsets the 32-bit spans cannot hold.
- GroundingLaws.RawSpanContainsQuote: stated where the text's NFKC stream is that of the raw span between two other parts; NFKC of a slice is not in general a slice of NFKC.
- `schemaError`, regular expressions and `multipleOf`: the schema test is an arbitrary predicate per setting.
- Equality of JSON values by their printed form: any test that never calls different values equal; key order is not modelled.
- ModelReconciliation.LoopReturnsIff: groups with a rule that looks into an array that stays, or with a setting above a rejected element that accepts its object but would reject it with some keys deleted; there the outcome depends on what the rounds before have deleted.
- ModelReconciliation.ReconcileModelSettings: groups on which the source does not return; its condition is met by exactly the others (`ModelReconciliation.EndsIff`).
- ModelReconciliation.ReconciledIsValid: stated where the loop returns, and for groups without a rejected null that no round looks at; none is there when extra and request paths lie under `/extra_params/` (`ModelAuthoringLaws.PointersLeaveNoNull`).
- ModelPatches.DiffMergesIff: the server's handling of redacted secrets, which does not occur under model groups; the merge does not start at raw parameters themselves.
- Chat messages: pending external tools, usage totals, retry notices, attachments, tool-call lists inside messages, listener notification and the order of messages, which is any permutation of what is specified.
- ChatRuns.StepKeeps: assumes fresh placeholder ids and distinct ids within a server batch.
- ChatStreaming.ResultsAreFifo: assumes that a call id that repeats within a turn keeps its name.
- EventBus.ExactlyOnce: assumes one subscriber per chat, one outstanding read and one cleanup per subscriber.
- Global and observer listeners of the event bus, reconnection timing, authentication of the stream.
- HTTP, SHA-256, serde and the file system: outcomes only. The catalog addresses, the hash and the two catalog parsers are parameters; a document reads back as written; error texts are an enumeration.
- A crash of the machine can lose or keep any rename that was not yet synced, and nothing else; torn or corrupted files after a sync are not modelled.
- AppRestarts.OrderlyBounded: one direction only; a disorderly run may still respect the limit, when the restarts that follow do not happen.
- Process spawning, killing, health checks, access times and the supervisor's schedule.
- AriaRender.Visit: scalars are assumed to render on one line; splitting and joining the text at line breaks is not modelled, nor is the incremental rendering against a previous tree.
- AxTree.ConvertNode: child ids are assumed acyclic, so the tree is given unrolled; node properties, values and visibility are not modelled.
- Everything else in the repository: agents, tools, storage, the user interface, command line and configuration would add easy members or foreign libraries.
