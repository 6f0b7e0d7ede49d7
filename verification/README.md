# HiveBear in Dafny

A model of the self-contained logic of HiveBear, with proofs of what that logic promises. Code that
works by changing things step by step is written as classes and loops, each method proved equal to a
pure specification function; the promises are lemmas about those functions, over all inputs and over
whole runs.

| subject | files |
|---|---|
| Resumable downloader | `DownloadModel`, `DownloadManager`, `DownloadProofs`, `DownloadRefusals`, `DownloadRetries`, `DownloadOutcomes` |
| JSON Schema to GBNF compiler | `Json`, `Grammar`, `SchemaModel`, `SchemaCompiler`, `SchemaNames`, `SchemaUniqueness`, `Languages`, `SchemaReading`, `SchemaMeaning`, `SchemaTheorems`, `Nesting`, `SchemaNesting`, `SchemaPadding`, `SchemaTokens`, `SchemaFaults`, `SchemaLiterals`, `JsonTexts`, `SchemaJson`, `SchemaKinds`, `SchemaWitnesses` |
| Coordinator URL normalizer | `Endpoint`, `EndpointProofs`, `EndpointTheorems`, `EndpointForms` |
| Chat prompt printers | `ChatTemplate`, `ChatConversations`, `MistralTemplate` |
| Coordinator server | `CoordinatorModel`, `CoordinatorServer`, `CoordinatorProofs`, `CoordinatorMatching`, `CoordinatorDelivery` |
| Layer offload | `Offload` |
| Storage walker and reports | `PathOrder`, `Storage`, `StorageReport` |
| Chat log | `ChatDatabase`, `ChatDatabaseProofs` |
| Shared | `Wrappers`, `Text`, `Ordering` |

`dafny verify dfyconfig.toml` checks everything.

## How the subjects are modelled

**Downloader.** A disk holds the partial, its meta and the finished file as optional values. A server
is a function from (number of the request, requested offset) to an answer; a response carries status,
optional sizes and a stream of chunks that may fail, with cancellations and process kills between any
two items, and kills inside the plan, the promotion and the cleanup. `RunCall` is one call as a pure
function; `DownloadManager.Download` is the same call with loops, files changed in place and the map of
cancellation senders. Histories are sequences of calls, for any mix of URLs. SHA-256 is an arbitrary
function of the bytes.

**Schema compiler.** The emitted grammar is a list of named rules over a small syntax tree. Its language
is the least fixed point of the rules, reached by unfolding references to growing depth. The partner is
`Reading`, a direct recursion over the schema that never mentions a rule name. It takes a style of three
choices: what an empty enum stands for, whether the commas around an omitted pair stay, and whether
strings, numbers, names and literals are spelled as the grammar spells them or as JSON does. One style is
what the grammar does. `Derived` is the reading in that style for every schema, with the quotes and
backslashes of names and literals undone as the grammar undoes them. A third partner knows no schema:
`IsJsonText` is the JSON grammar of RFC 8259.

**Coordinator.** Each handler and each prune tick is one step over the four tables; times are
milliseconds. Theorems range over all sequences of steps.

**Chat log.** Two tables, with primary keys, the foreign key and its cascade. The partner is a map from
conversation to the list of its entries.

What a function does is also stated without it: what each answer of a server leads to, what each type
name derives, what each form of a URL becomes, what a prompt looks like, what a poll, a claim or a signal
is answered, with the numbers and texts of the code written out.

## What the proofs found

The code is modelled as it is. Where it falls short of what one would expect, the exact condition is
proved, and an input that fails is given:

* A failed request throws the downloaded bytes away after a real 416 and after any other answer whose
  error text contains those digits: in the URL, in the reason phrase or in a network error
  (`ProgressDroppedIff`; `UrlDropsProgress`).
* After a 2xx other than 200 and 206 in the middle of a download, the byte counter no longer equals the
  length of the partial (`CounterAgreesAfterEveryChunk`; a 204 in `OtherSuccessWitness`).
* The size recorded in a meta is carried over even when that meta names another URL and its bytes are
  discarded. A server that reveals no size can let the call finish if and only if the carried-over size
  is absent or at most the true one (`UnsizedCallFinishesIff`; `StaleTotalWitness`). The block lasts, for
  any later calls for smaller files from such servers, until one of them has removed the meta
  (`BlockedUntilMetaIsRemoved`).
* A kill between the two removals of a cleanup leaves bytes without a meta, which are continued as bytes
  of whatever URL comes next (`OrphanedPartialIsAdopted`). Histories are safe when the same URL is asked
  next (`SameUrlIsEnough`) and when there is no such kill (`NoCleanupKill`); exactly, when the bytes found
  without a meta are always of the URL asked for (`StartsAreTraceableIff`).
* Against a server that answers ranges as RFC 9110 has it, a resuming call throws its bytes away if and
  only if they are complete (`RequestDropsIffComplete`), as a kill before the promotion leaves them: the
  range after the end is refused with 416, and the file is fetched again (`CompletePartialIsRefetched`).
* Not everything the grammar derives is JSON. All derivable texts are JSON texts if and only if no enum
  the compiler reads is empty, no object of two or more properties has an optional one, nothing read is a
  string, a number, an integer, an array without `items` or an object without `properties`, and no name
  or literal read needs an escape (`DerivesOnlyJsonIff`). Each clause names a deviation: an empty enum
  derives the empty text (`EmptyEnumBelow`), the commas around an omitted pair stay (`TrailingComma`),
  numbers may have leading zeros (`LeadingZeros`; RFC 8259 section 6), strings may hold control
  characters and any backslash pair (`RawLineFeed`; section 7), and names and literals are quoted without
  escaping (`ValueTextIsJsonIff`; `ConstLineFeed`). Wanting only some of these repaired, the
  derivable texts are those of the reading in that style if and only if the clauses for it hold
  (`MeansWhatIsWantedIff`). Both are for schemas whose node paths are distinct and whose names and
  literals have no quotes or backslashes; the first also takes for granted that numbers in literals are
  spelled as JSON spells them, as those of a parsed schema are.
* Quotes and backslashes of names and literals reach the emitted literal as they are. What the grammar
  then derives is proved for every schema that compiles and whose node paths are distinct
  (`LanguageIsDerived`). A literal or name derives its own text if
  and only if it has neither (`LiteralIsTextIff`, `NameIsTextIff`; `BareQuote` derives nothing at all), and
  in those schemas the rule of every node derives what the node reads as if and only if no name and no
  literal read has any (`EveryNodeMeansItselfIff`). For the rule of the root alone that condition is not necessary
  (`RootAlone`).
* Two schema nodes can share a rule name. Each nonterminal is defined exactly once if and only if the
  hyphen-joined paths of all nodes are distinct and at most one object lacks `properties`
  (`DefinedExactlyOnce`; `HyphenCollision`). Names without hyphens have distinct paths
  (`HyphenFreePathsAreDistinct`), but a hyphen need not collide (`LoneHyphen`). Several objects without
  `properties` define the shared rules several times, harmlessly, because the copies agree.
* A normalized coordinator URL starts with `http://` or `https://` if and only if the input is blank or its
  scheme is missing, http or https (`OutputIsAbsoluteIff`); other schemes are passed through.
* Normalizing a coordinator URL twice changes the result exactly when the first result ends in
  whitespace or a bare IPv6 text contains a `]` (`IdempotentIff`; `BlankBeforeSlash`,
  `BracketInBareText`). The port read back out of a result is out of range exactly when the first `]` of
  such a text is followed by `:` (`OutputPort`; `BracketThenColon`).
* Receipts share a key exactly when their timestamps are equal and client and nonce, joined with `:`,
  read the same (`SameKeyIff`; `KeyCollision`). With colon-free client ids the key is injective
  (`KeyIsInjective`).
* A tick never clears the queue of an id that is not registered (`TickKeepsUnregisteredQueues`).
* Without GPU and mesh all layers go to the CPU whether or not they fit (`CpuOnlyFitsIff`;
  `CpuOnlyOverflows`), and casting a quotient to 32 bits can leave room unused (`OptimalIff`;
  `CastLosesNineLayers`).
* The Mistral format prints the first system text and the tools only in front of the first user text, so
  both are lost unless there is a system and a user message (`SystemIsLostIff`, `ToolsAreLostIff`;
  `SystemAlone`, `ToolsWithoutSystem`). Every later system message is always lost (`LaterSystemsAreLost`;
  `SecondSystem`).

The comment on `parse_content_range_total` says it returns nothing for an unsatisfied range and in the
same sentence that `bytes */<total>` parses; the code parses it, and so does the model
(`ContentRangeRoundTrip`).

## Model

| member | source | states |
|---|---|---|
| `DownloadManagers.DownloadManager.CancelDownload` | crates/hivebear-registry/src/download.rs:150-158 | answers whether that id had a sender, removes it and raises only that download's flag |
| `DownloadManagers.DownloadManager.SendWithRetry` | crates/hivebear-registry/src/download.rs:161-237 | the retry loop gives the outcome, request count and back-off of the specification, and a cancellation during it flags this download and no other |
| `DownloadManagers.DownloadManager.CleanupOnExit` | crates/hivebear-registry/src/download.rs:268-275 | unregisters this sender alone and removes partial and meta exactly when asked |
| `DownloadManagers.DownloadManager.AbandonDownload` | crates/hivebear-registry/src/download.rs:340-369 | giving up removes the sender and the files; a kill between the two removals leaves the partial without its meta |
| `DownloadManagers.DownloadManager.ReadBody` | crates/hivebear-registry/src/download.rs:435-486 | the write loop leaves the file, counter and end the specification of a body stream gives, and no other download's flag changes |
| `DownloadManagers.DownloadManager.Prepare` | crates/hivebear-registry/src/download.rs:277-327 | plan, discard and first meta write, and what a kill during the discard or before that write leaves |
| `DownloadManagers.DownloadManager.RequestResponse` | crates/hivebear-registry/src/download.rs:340-369 | request and restart after a range refusal; every failure unregisters the sender |
| `DownloadManagers.DownloadManager.LearnSize` | crates/hivebear-registry/src/download.rs:371-411 | offset reset, and the learned size written to the meta |
| `DownloadManagers.DownloadManager.OpenPartial` | crates/hivebear-registry/src/download.rs:413-433 | the partial opened for append or truncated |
| `DownloadManagers.DownloadManager.RunAttempt` | crates/hivebear-registry/src/download.rs:332-532 | one loop iteration with the pause after it refines the specification's step; leaving the loop other than by a kill unregisters the sender |
| `DownloadManagers.DownloadManager.PromotePartial` | crates/hivebear-registry/src/download.rs:534-600 | size guard, checksum, rename and final cleanup |
| `DownloadManagers.DownloadManager.Download` | crates/hivebear-registry/src/download.rs:240-601 | the imperative call equals the pure call in files, answer and counters; after every exit but a kill this call's cancellation entry is gone, and the entries and flags of all others are kept |
| `DownloadProofs.SendStopsAt` | crates/hivebear-registry/src/download.rs:167-236 | a request is decided by the first answer not worth retrying or the last one allowed, and the delays before it double |
| `DownloadProofs.SendWithRetryBounds` | crates/hivebear-registry/src/download.rs:161-237 | at most 4 requests and 14 seconds of back-off |
| `DownloadProofs.CallBounds` | crates/hivebear-registry/src/download.rs:329-532 | whatever the server does, at most 8 requests and 28 seconds of back-off per stream attempt |
| `DownloadRetries.BrokenStreamsAreResumed` | crates/hivebear-registry/src/download.rs:332-600 | from nothing or from a part of the file, however often the stream breaks or ends short, with a retry for each time the call ends Ok with exactly the source, after one more request than breaks |
| `DownloadRetries.CutReplyIsResumed` | crates/hivebear-registry/src/download.rs:475-532 | a reply that breaks or ends short costs one retry, keeps every byte it brought, and the next attempt goes on behind them |
| `DownloadRetries.InterruptedOnlyWithoutRetries` | crates/hivebear-registry/src/download.rs:504-518 | a loop is given up as interrupted only when no retry is left |
| `DownloadRetries.InterruptedAfterAllAttempts` | crates/hivebear-registry/src/download.rs:329-532 | so a call interrupted by its streams has made all its attempts |
| `DownloadRetries.OneRetryTooFew` | crates/hivebear-registry/src/download.rs:504-518 | with one retry too few the call is interrupted and keeps all bytes it got and the size it learned |
| `DownloadOutcomes.CancelledEarly` | crates/hivebear-registry/src/download.rs:333-338 | cancelled before its loop a call makes no request and leaves neither partial nor meta |
| `DownloadOutcomes.CancelledWhileReading` | crates/hivebear-registry/src/download.rs:440-446 | cancelled while a body is read it stops at the next chunk or failure and removes what it had |
| `DownloadOutcomes.CancelledWhilePending` | crates/hivebear-registry/src/download.rs:440-446 | the same when it is cancelled while the request is pending |
| `DownloadOutcomes.CancelledInPause` | crates/hivebear-registry/src/download.rs:333-338 | and in the pause between two attempts, without another request |
| `DownloadOutcomes.RequestRemembersCancel` | crates/hivebear-registry/src/download.rs:340-369 | a cancellation while any request of an attempt is pending, a restart included, is remembered, and nothing else is |
| `DownloadOutcomes.RefusedAtOnce` | crates/hivebear-registry/src/download.rs:183-217 | a status from 300 to 499 other than 429 ends a fresh call after one request, with the message for it as the code words it, and leaves nothing |
| `DownloadOutcomes.RefusedAfterFour` | crates/hivebear-registry/src/download.rs:161-237 | 429, 5xx or network errors all the way end it after four requests and fourteen seconds of back-off |
| `DownloadOutcomes.FailedRequestLeaves` | crates/hivebear-registry/src/download.rs:340-369 | a request that fails leaves everything as it was, which takes some progress, or neither partial nor meta |
| `DownloadOutcomes.ChecksumDecides` | crates/hivebear-registry/src/download.rs:552-597 | a whole file is kept exactly when no checksum is expected or it has that one in whatever case; otherwise nothing is left and both checksums are reported |
| `DownloadOutcomes.MetaDescribesCall` | crates/hivebear-registry/src/download.rs:316-327 | a meta left by a call names its URL, checksum, model and file, and the time of the call that found none |
| `DownloadOutcomes.MetaIsOnDisk` | crates/hivebear-registry/src/download.rs:404-411 | at every loop head the meta on disk is the one in memory, with the size learned so far |
| `DownloadOutcomes.KilledAtStart` | crates/hivebear-registry/src/download.rs:277-327 | killed before its meta is written a call has asked for nothing, and only bytes whose meta names another URL may be gone |
| `DownloadOutcomes.KilledInPause` | crates/hivebear-registry/src/download.rs:519-531 | killed between two attempts a call leaves all bytes it got |
| `DownloadOutcomes.KilledAtPromotion` | crates/hivebear-registry/src/download.rs:591-597 | killed around the rename it leaves the whole file as the partial or as the finished file, with its meta |
| `DownloadProofs.EveryLoopHeadAgrees` | crates/hivebear-registry/src/download.rs:332-532 | at the n-th loop head n retries are used up and a non-zero counter is the partial's length |
| `DownloadProofs.ConsumeAppends` | crates/hivebear-registry/src/download.rs:440-483 | reading a body appends a prefix of its payload and counts exactly what it appends |
| `DownloadProofs.CounterAgreesAfterEveryChunk` | crates/hivebear-registry/src/download.rs:371-483 | after every event of every response counter and file agree, if and only if the reply is 200 or 206 or nothing was downloaded before |
| `DownloadProofs.PromotionGuard` | crates/hivebear-registry/src/download.rs:534-592 | whatever any server answers, the finished file changes only by a promotion; even if the process dies right after it, the file is the whole partial the loop left, with the expected checksum and at least the last known size |
| `DownloadProofs.ExitStates` | crates/hivebear-registry/src/download.rs:327-600 | the files each kind of exit leaves: finished file only, partial with a meta for this URL, neither partial nor meta, or, after a kill in a cleanup, no meta |
| `DownloadProofs.BytesDiscardedOnlyForAnotherUrl` | crates/hivebear-registry/src/download.rs:64-80 | the plan discards bytes if and only if a readable meta names another URL, and otherwise resumes at the partial's length |
| `DownloadProofs.CallKeepsProvenance` | crates/hivebear-registry/src/download.rs:240-601 | one call, however it ends or dies, leaves bytes of the URL its meta names or, without a meta, of its own; it leaves none only when killed in a cleanup or killed before it could write one; what it finishes is the head of the source of its own URL, and the whole source if sizes are revealed |
| `DownloadProofs.AdoptionIsSoundIff` | crates/hivebear-registry/src/download.rs:64-80 | bytes found without a meta are continued rightly exactly when they are a prefix of the source of the URL asked |
| `DownloadProofs.ProvenanceOverHistories` | crates/hivebear-registry/src/download.rs:296-327 | after any history of calls with any URLs in which bare bytes were of the URL asked next, the partial is a prefix of the source of its meta's URL or, where a kill left no meta, of the last URL asked |
| `DownloadProofs.SameUrlIsEnough` | crates/hivebear-registry/src/download.rs:268-327 | bytes found without a meta are of the URL asked when each call that leaves such bytes is followed by one for the same URL |
| `DownloadProofs.BareOnlyAfterCleanupKill` | crates/hivebear-registry/src/download.rs:268-275 | no call leaves such bytes unless one is killed in a cleanup |
| `DownloadProofs.NoCleanupKill` | crates/hivebear-registry/src/download.rs:268-275 | so they are also of the URL asked in every history without such a kill |
| `DownloadProofs.StartsAreTraceableIff` | crates/hivebear-registry/src/download.rs:268-327 | in a faithful history every call starts from bytes of the URL its meta names if and only if bytes found without a meta are always of the URL asked |
| `DownloadProofs.ResumedDownloadsAreExact` | crates/hivebear-registry/src/download.rs:296-601 | in every history of interrupted, failed, killed and resumed calls against faithful servers that reveal their size, in which bytes found without a meta are of the URL asked, each Ok promotes exactly the source bytes of its URL |
| `DownloadProofs.FinishedFilesAreHeads` | crates/hivebear-registry/src/download.rs:296-601 | in such histories whose servers need not reveal any size, what a call finishes is the head of the source of its URL |
| `DownloadProofs.ResumeTakesOneRequest` | crates/hivebear-registry/src/download.rs:240-601 | an interrupted download whose server sends the rest finishes with the exact source after one request |
| `DownloadProofs.CompletePartialIsRefetched` | crates/hivebear-registry/src/download.rs:340-354 | against a server that answers ranges as RFC 9110 has it, a complete partial is dropped on the 416 for its end and the exact source fetched again, with two requests |
| `DownloadProofs.RequestDropsIffComplete` | crates/hivebear-registry/src/download.rs:340-354 | against that server the request for the rest of a partial drops its bytes if and only if the partial is complete |
| `DownloadProofs.RangeServerResumes` | crates/hivebear-registry/src/download.rs:240-601 | and from any non-empty partial the call ends Ok with exactly the source, after two requests if it was complete and one otherwise |
| `DownloadProofs.OrphanedPartialIsAdopted` | crates/hivebear-registry/src/download.rs:268-275 | a cancelled call killed between the two removals leaves bytes that the next call, for another URL, completes as its own and reports Ok |
| `DownloadProofs.OtherSuccessWitness` | crates/hivebear-registry/src/download.rs:371-433 | a 204 in the middle of a download leaves one byte on disk and a counter of five |
| `DownloadProofs.StaleTotalBlocksPromotion` | crates/hivebear-registry/src/download.rs:316-326 | a larger size recorded before blocks every promotion against every faithful server that reveals none |
| `DownloadProofs.UnsizedCallFinishesIff` | crates/hivebear-registry/src/download.rs:316-326 | some faithful server that reveals no size lets the call finish if and only if the carried-over size is absent or at most the true one |
| `DownloadProofs.WholeFinishes` | crates/hivebear-registry/src/download.rs:371-601 | a plain 200 with the whole source finishes with exactly that source under that condition |
| `DownloadProofs.StaleTotalWitness` | crates/hivebear-registry/src/download.rs:316-326 | with a meta of another download of 5 bytes on disk, a call for a file of 3 bytes fails |
| `DownloadProofs.StaleTotalLasts` | crates/hivebear-registry/src/download.rs:316-326 | a call against a server that reveals no size removes the meta or leaves the carried-over size to the next |
| `DownloadProofs.BlockedUntilMetaIsRemoved` | crates/hivebear-registry/src/download.rs:316-326 | in any history of calls for smaller files whose servers reveal no size, none ends Ok before one of them has removed the meta |
| `DownloadProofs.ContentRangeRoundTrip` | crates/hivebear-registry/src/download.rs:42-45 | any text, a slash and a printed 64-bit total reads back as that total |
| `DownloadProofs.TotalWithBlanks` | crates/hivebear-registry/src/download.rs:42-45 | so it does with blanks around it |
| `DownloadProofs.UnknownTotal` | crates/hivebear-registry/src/download.rs:42-45 | a total of `*` reads as none |
| `DownloadRefusals.RefusalMentions416` | crates/hivebear-registry/src/download.rs:205-215 | the text test for 416 succeeds exactly for status 416 and for statuses quoting a reason or URL that contains those digits |
| `DownloadRefusals.GaveUpMentions416` | crates/hivebear-registry/src/download.rs:227-232 | and for a network error given up on exactly when its text contains them |
| `DownloadRefusals.ProgressDroppedIff` | crates/hivebear-registry/src/download.rs:340-354 | a failed request loses the bytes on disk exactly when its last answer is one of those |
| `DownloadRefusals.UrlDropsProgress` | crates/hivebear-registry/src/download.rs:340-354 | a server that keeps answering 500 costs a download of `http://host/416` its 4 bytes |
| `SchemaCompilers.SchemaCompiler.JsonSchemaToGbnf` | crates/hivebear-inference/src/structured_output.rs:7-15 | the compiler with its shared rule vector returns the rule list of the pure compilation |
| `SchemaCompilers.SchemaCompiler.GenerateRule` | crates/hivebear-inference/src/structured_output.rs:17-66 | returns a node's rule and pushes exactly the rules of its descendants |
| `SchemaCompilers.SchemaCompiler.GenerateObjectRule` | crates/hivebear-inference/src/structured_output.rs:68-116 | the property loop pushes and collects what the recursion over the members gives, also when it stops at an error |
| `SchemaCompilers.SchemaCompiler.GenerateArrayRule` | crates/hivebear-inference/src/structured_output.rs:118-140 | the same for the item rule of an array |
| `Json.GetIff` | crates/hivebear-inference/src/structured_output.rs:20-28 | looking a name up gives the value of the first member of that name, and nothing outside objects |
| `SchemaNames.GrammarIsClosed` | crates/hivebear-inference/src/structured_output.rs:11-12 | for every schema that compiles `root` is the first rule and every nonterminal used is defined |
| `SchemaNames.OwnRuleFirst` | crates/hivebear-inference/src/structured_output.rs:17-66 | the entry returned for a node starts with the rule of the requested name |
| `SchemaUniqueness.DefinedExactlyOnce` | crates/hivebear-inference/src/structured_output.rs:73-134 | each nonterminal is defined once if and only if the hyphen-joined paths of the schema's nodes are distinct and at most one object lacks `properties` |
| `SchemaUniqueness.CompiledCounts` | crates/hivebear-inference/src/structured_output.rs:73-134 | how often any name is defined: shared names once per object without `properties`, `ws` once, any other once per node with that path |
| `SchemaUniqueness.HyphenFreePathsAreDistinct` | crates/hivebear-inference/src/structured_output.rs:94-97 | joining hyphen-free property names gives all nodes distinct paths |
| `SchemaWitnesses.HyphenCollision` | crates/hivebear-inference/src/structured_output.rs:94-97 | a whole schema with `a`, a nested `k` and a flat `a-k` compiles to a grammar that defines `root-a-k` twice |
| `SchemaWitnesses.LoneHyphen` | crates/hivebear-inference/src/structured_output.rs:94-97 | a hyphenated name that meets no other path keeps all paths distinct |
| `SchemaMeaning.ExpressibleCompiles` | crates/hivebear-inference/src/structured_output.rs:17-140 | schemas within the supported subset always compile |
| `SchemaMeaning.NodeDerives` | crates/hivebear-inference/src/structured_output.rs:17-140 | for every schema the rule of each node derives the words of that node's derived reading |
| `SchemaMeaning.NodeMeaning` | crates/hivebear-inference/src/structured_output.rs:17-140 | without quotes and backslashes in names and literals, the rule of every schema node derives the words of that node's own reading |
| `SchemaMeaning.MembersMeaning` | crates/hivebear-inference/src/structured_output.rs:93-113 | the joined parts of an object derive its declared pairs in iteration order, each value from its own subschema |
| `SchemaReading.ValueTextIsJsonIff` | crates/hivebear-inference/src/structured_output.rs:30-49 | the word for an enum or const value is its JSON text exactly when it is no string or has no character that needs an escape |
| `SchemaTheorems.LanguageIsDerived` | crates/hivebear-inference/src/structured_output.rs:7-140 | for every schema that compiles and has distinct node paths, whatever its names and literals, the words derivable from `root` are exactly those of the derived reading |
| `SchemaTheorems.CompilationPreservesMeaning` | crates/hivebear-inference/src/structured_output.rs:7-140 | for schemas with distinct node paths and without quotes or backslashes in names and literals, the words derivable from `root` are exactly those of the direct reading in the style that keeps commas, blanks empty enums and spells tokens as the grammar does |
| `SchemaLiterals.LiteralIsTextIff` | crates/hivebear-inference/src/structured_output.rs:28-49 | the literal of an enum or const value derives exactly its text if and only if it has no quotes and no backslashes |
| `SchemaLiterals.NameIsTextIff` | crates/hivebear-inference/src/structured_output.rs:100 | and so does that of a property name |
| `SchemaLiterals.ChoicesAreTextIff` | crates/hivebear-inference/src/structured_output.rs:28-41 | the words of an enum are the texts of its values if and only if none of them has any |
| `SchemaLiterals.ObjectIsReadIff` | crates/hivebear-inference/src/structured_output.rs:93-116 | an object whose values have none is derived as it reads if and only if its names have none |
| `SchemaLiterals.EveryNodeMeansItselfIff` | crates/hivebear-inference/src/structured_output.rs:7-140 | for every schema that compiles and has distinct node paths, every node's rule derives what that node reads as if and only if no name and no literal read has a quote or backslash |
| `SchemaNesting.ReadingFits` | crates/hivebear-inference/src/structured_output.rs:17-140 | every word of a reading closes its own brackets and strings and has commas only inside them |
| `SchemaFaults.CleanAgrees` | crates/hivebear-inference/src/structured_output.rs:28-134 | a schema without what a style reads differently - empty enums; optional properties among several; strings, numbers, open arrays and objects, names and literals that need an escape - has the same words in that style as in the grammar's |
| `SchemaFaults.FaultShows` | crates/hivebear-inference/src/structured_output.rs:28-134 | each of these, however deep, makes the grammar derive a word that the reading in that style does not contain even up to blanks |
| `SchemaFaults.MeansWhatIsWantedIff` | crates/hivebear-inference/src/structured_output.rs:7-140 | for schemas with distinct node paths and without quotes or backslashes in names and literals, and for each of the eight styles, the words derivable from `root` are those of the reading in that style if and only if the schema has nothing that style reads differently |
| `SchemaTokens.ScalarShows` | crates/hivebear-inference/src/structured_output.rs:55-61 | string, number and integer rules derive a text that is no such JSON token |
| `SchemaTokens.LiteralShows` | crates/hivebear-inference/src/structured_output.rs:28-49 | a literal that needs an escape is none of the values as JSON writes them |
| `SchemaTokens.OpenObjectShows` | crates/hivebear-inference/src/structured_output.rs:75-84 | an object without `properties` derives a text that is no object of JSON pairs |
| `Json.EscapeReadsBack` | crates/hivebear-inference/src/structured_output.rs:36-49 | reading the escaped text of a string by section 7 of RFC 8259 gives that string |
| `Json.PrintOneMore` | crates/hivebear-inference/src/structured_output.rs:36-49 | another item is printed in front of the bracket, behind a comma |
| `Json.PrintOneMoreMember` | crates/hivebear-inference/src/structured_output.rs:36-49 | and another member, with its name as a string and a colon, in front of the brace |
| `JsonTexts.PrintIsJson` | crates/hivebear-inference/src/structured_output.rs:37-49 | printed values are JSON values by the grammar of RFC 8259 |
| `JsonTexts.ValueStart` | crates/hivebear-inference/src/structured_output.rs:55-61 | a JSON value that starts with a quote is a JSON string, and none starts with a superfluous zero |
| `SchemaJson.ReadingIsJson` | crates/hivebear-inference/src/structured_output.rs:7-140 | every word of the strict reading of a schema is a JSON value |
| `SchemaJson.FaultIsNoJson` | crates/hivebear-inference/src/structured_output.rs:28-134 | each deviation, however deep, makes the grammar derive a text that is no JSON |
| `SchemaJson.DerivesOnlyJsonIff` | crates/hivebear-inference/src/structured_output.rs:7-140 | all texts derivable from `root` are JSON if and only if the schema has no empty enum, no optional property among several, no string, number, integer, open array or open object and no name or literal that needs an escape |
| `SchemaKinds.ScalarTypes` | crates/hivebear-inference/src/structured_output.rs:52-63 | the words derived for a schema of type boolean, null, integer, number or string, spelled out |
| `SchemaKinds.NoTypeIsString` | crates/hivebear-inference/src/structured_output.rs:22-25 | a schema without a type, or with one that is no string, counts as a string |
| `SchemaKinds.OtherTypesAreRefused` | crates/hivebear-inference/src/structured_output.rs:64 | any type name but the seven is refused by name |
| `SchemaKinds.EnumDecides` | crates/hivebear-inference/src/structured_output.rs:27-42 | an enum array decides, whatever else the schema holds, and derives the texts of its values |
| `SchemaKinds.ConstDecides` | crates/hivebear-inference/src/structured_output.rs:44-50 | without an enum array a const derives its one text |
| `SchemaKinds.ArrayTypes` | crates/hivebear-inference/src/structured_output.rs:118-140 | an array derives brackets around items with commas, each as its own schema has it, or strings, integers and keywords where it has none |
| `SchemaKinds.ObjectTypes` | crates/hivebear-inference/src/structured_output.rs:87-116 | an object derives braces around the pairs of its properties in order, those that no string in `required` names left out or not, but never their commas |
| `SchemaKinds.OpenObjects` | crates/hivebear-inference/src/structured_output.rs:75-84 | an object without `properties` derives braces around any pairs of a string and a string, number or keyword |
| `SchemaKinds.PropertiesMustBeObject` | crates/hivebear-inference/src/structured_output.rs:73-74 | `properties` that are no object are an error |
| `SchemaWitnesses.TrailingComma` | crates/hivebear-inference/src/structured_output.rs:102-113 | with a required and an optional property a text with a comma in front of the closing brace is derivable |
| `SchemaWitnesses.EmptyEnumBelow` | crates/hivebear-inference/src/structured_output.rs:28-41 | a required property with an empty enum derives a pair without a value |
| `SchemaWitnesses.LeadingZeros` | crates/hivebear-inference/src/structured_output.rs:61 | `007` is derivable for an integer |
| `SchemaWitnesses.RawLineFeed` | crates/hivebear-inference/src/structured_output.rs:55-57 | a quoted line feed is derivable for a schema that says nothing |
| `SchemaWitnesses.ConstLineFeed` | crates/hivebear-inference/src/structured_output.rs:43-46 | a const string that is a line feed derives a quoted bare line feed, which is no JSON text |
| `SchemaWitnesses.BareQuote` | crates/hivebear-inference/src/structured_output.rs:43-46 | a const string that is a quote derives nothing |
| `SchemaWitnesses.RootAlone` | crates/hivebear-inference/src/structured_output.rs:28-41 | an array of an enum with a literal in quotes derives what it reads as, although that literal derives nothing |
| `Languages.StarIsList` | crates/hivebear-inference/src/structured_output.rs:137-139 | one item followed by repeated separator and item is exactly a separated list |
| `Languages.DenString` | crates/hivebear-inference/src/structured_output.rs:55-57 | the string rule derives exactly the quoted texts in which every quote and backslash is escaped |
| `EndpointTheorems.IdempotentIff` | crates/hivebear-core/src/config/endpoint.rs:118-169 | normalizing twice equals normalizing once if and only if nothing kept ends in whitespace and no bare IPv6 text contains a closing bracket |
| `EndpointTheorems.IdempotentWithoutInnerBlanks` | crates/hivebear-core/src/config/endpoint.rs:118-169 | idempotence for all inputs without inner whitespace whose host part has a closing bracket only after an opening one |
| `EndpointTheorems.OutputShape` | crates/hivebear-core/src/config/endpoint.rs:118-169 | for a missing, http or https scheme the output starts with `http://` or `https://`, has no query or fragment, does not end in a slash, and appending `/register` keeps scheme and authority |
| `EndpointTheorems.OutputIsAbsoluteIff` | crates/hivebear-core/src/config/endpoint.rs:118-169 | the output starts with `http://` or `https://` exactly when the input is blank or has a missing, http or https scheme |
| `EndpointTheorems.OutputPort` | crates/hivebear-core/src/config/endpoint.rs:118-169 | for a missing, http or https scheme a port split back out of the result is a decimal in 1..65535, if and only if the input is no bare IPv6 text whose first closing bracket is followed by a colon |
| `EndpointTheorems.BlankBeforeSlash` | crates/hivebear-core/src/config/endpoint.rs:95-101 | `http://host /` is normalized differently the second time |
| `EndpointTheorems.BracketInBareText` | crates/hivebear-core/src/config/endpoint.rs:76-81 | so is `http://a]b:c:d`, although its port property holds |
| `EndpointTheorems.BracketThenColon` | crates/hivebear-core/src/config/endpoint.rs:76-81 | `http://a]:b:c` gives a result with a port that is no number |
| `EndpointTheorems.StrictAndLenient` | crates/hivebear-core/src/config/endpoint.rs:108-169 | what strict validation accepts the lenient form returns unchanged, and each rejection says what is wrong and how the lenient form repairs it |
| `EndpointTheorems.ValidateForm` | crates/hivebear-core/src/config/endpoint.rs:108-110 | validation succeeds exactly for http(s) inputs with a host and no unusable port |
| `EndpointTheorems.ValidateIsStableIff` | crates/hivebear-core/src/config/endpoint.rs:108-169 | validation accepts its own output unchanged exactly when normalization is idempotent |
| `EndpointForms.MissingSchemeIsHttp` | crates/hivebear-core/src/config/endpoint.rs:48-53 | a text without a scheme is normalized and validated as if it had `http://` in front |
| `EndpointForms.PlainHostAlone` | crates/hivebear-core/src/config/endpoint.rs:118-169 | a plain host by itself becomes `http://` and that host |
| `EndpointForms.FullForm` | crates/hivebear-core/src/config/endpoint.rs:118-169 | of scheme in any case, plain host, port, path, trailing slashes and query or fragment, the scheme in lower case, host, port and path remain |
| `EndpointForms.PortDecides` | crates/hivebear-core/src/config/endpoint.rs:152-166 | an empty port is dropped, a number in 1..65535 kept, and anything else dropped or, when strict, refused by its text |
| `EndpointForms.PathForms` | crates/hivebear-core/src/config/endpoint.rs:95-101 | trailing slashes and everything from a `?` or `#` on are cut off |
| `EndpointForms.BareIpv6Form` | crates/hivebear-core/src/config/endpoint.rs:78-82 | bare text with two or more colons is put in brackets |
| `EndpointForms.BracketedForm` | crates/hivebear-core/src/config/endpoint.rs:71-76 | brackets stay, with or without a port |
| `EndpointForms.UserinfoForm` | crates/hivebear-core/src/config/endpoint.rs:65-69 | a user name stays in front |
| `EndpointForms.BlanksAround` | crates/hivebear-core/src/config/endpoint.rs:123 | spaces, tabs and line ends around a URL do not matter |
| `EndpointForms.DefaultAndPassedThrough` | crates/hivebear-core/src/config/endpoint.rs:125-140 | blank inputs become the default URL or an error; other schemes are passed through or refused by name |
| `EndpointForms.NoHostIsDefault` | crates/hivebear-core/src/config/endpoint.rs:144-150 | an http or https URL without a host becomes the default or an error |
| `EndpointProofs.PartsAreRecovered` | crates/hivebear-core/src/config/endpoint.rs:48-59 | scheme, authority and path put together split back into the same parts |
| `EndpointProofs.KeptTwice` | crates/hivebear-core/src/config/endpoint.rs:64-91 | host and port survive being printed and split again exactly when no bare IPv6 text contains a closing bracket |
| `EndpointProofs.TrailingBlankOfResult` | crates/hivebear-core/src/config/endpoint.rs:95-101 | when the normalized text ends in whitespace |
| `ChatTemplate.RenderChatml` | crates/hivebear-inference/src/chat_template.rs:133-167 | the loop with its late tool injection prints the conversation with a system message in front |
| `ChatTemplate.RenderLlama3` | crates/hivebear-inference/src/chat_template.rs:86-129 | the same, although the lead is cut off and put back |
| `ChatConversations.ConversationsReadBack` | crates/hivebear-inference/src/chat_template.rs:86-167 | without tools, reading a prompt back gives one turn for each message, in order, under the role name and with the text of that message |
| `ChatConversations.ToolConversationsReadBack` | crates/hivebear-inference/src/chat_template.rs:86-167 | with tools their description stands behind each system text, and a default system turn in front when there is none |
| `ChatConversations.RenderedTexts` | crates/hivebear-inference/src/chat_template.rs:86-167 | both prompts written out: headers, texts, end markers, the injected system message and the header of the answer |
| `ChatConversations.ToolText` | crates/hivebear-inference/src/chat_template.rs:61-82 | the description of the tools written out |
| `ChatTemplate.InjectionIsPrepending` | crates/hivebear-inference/src/chat_template.rs:117-125 | injecting the tools afterwards prints what prepending a system message would |
| `ChatTemplate.ReadablePrompt` | crates/hivebear-inference/src/chat_template.rs:86-167 | a reader of headers and end markers recovers all (role, text) pairs if and only if no text contains the end marker |
| `ChatTemplate.FramesAreReadable` | crates/hivebear-inference/src/chat_template.rs:86-167 | the markers of both formats have the shape that reading back needs, in particular no self-overlap |
| `ChatTemplate.UniqueReadability` | crates/hivebear-inference/src/chat_template.rs:86-167 | ChatML and Llama 3 prompts, with or without tools, are uniquely readable under that condition |
| `ChatTemplate.PromptsDiffer` | crates/hivebear-inference/src/chat_template.rs:86-167 | two conversations with the same prompt are the same when neither contains the end marker |
| `MistralTemplate.RenderMistral` | crates/hivebear-inference/src/chat_template.rs:236-278 | the loop with its first-user flag prints, turn by turn, the conversation with the system text folded into the first user message |
| `MistralTemplate.PieceText` | crates/hivebear-inference/src/chat_template.rs:244-274 | what each kind of message prints, written out |
| `MistralTemplate.PromptText` | crates/hivebear-inference/src/chat_template.rs:236-278 | the whole prompt written out, message by message, with the system text in front of the first user text |
| `MistralTemplate.SystemGoesToFirstUser` | crates/hivebear-inference/src/chat_template.rs:236-278 | when there are a system and a user message, the first system text and the tools stand in front of the first user's text and the rest is printed piece by piece |
| `MistralTemplate.SystemIsLostIff` | crates/hivebear-inference/src/chat_template.rs:239-263 | the prompt is that of the conversation without system messages and tools exactly when a system or a user message is missing |
| `MistralTemplate.ToolsAreLostIff` | crates/hivebear-inference/src/chat_template.rs:239-263 | tools change nothing in the prompt exactly when there are none, no system message or no user message |
| `MistralTemplate.LaterSystemsAreLost` | crates/hivebear-inference/src/chat_template.rs:240-251 | no system message after the first changes the prompt |
| `MistralTemplate.SystemAlone` | crates/hivebear-inference/src/chat_template.rs:239-263 | a system message alone prints nothing |
| `MistralTemplate.ToolsWithoutSystem` | crates/hivebear-inference/src/chat_template.rs:239-263 | a user message alone is printed without the tools |
| `MistralTemplate.SecondSystem` | crates/hivebear-inference/src/chat_template.rs:240-251 | a second system message is not printed |
| `CoordinatorServer.CoordinatorState.RegisterNode` | crates/hivebear-coordinator/src/main.rs:128-139 | updates the node table as the specification step |
| `CoordinatorServer.CoordinatorState.HeartbeatNode` | crates/hivebear-coordinator/src/main.rs:141-161 | a heartbeat of a known or unknown node has the same effect as a registration |
| `CoordinatorServer.CoordinatorState.DeregisterNode` | crates/hivebear-coordinator/src/main.rs:198-208 | drops node and queue of the given id, and nothing without an id |
| `CoordinatorServer.CoordinatorState.SendSignal` | crates/hivebear-coordinator/src/main.rs:218-233 | appends below 50 signals, refuses from 50 on |
| `CoordinatorServer.CoordinatorState.PollSignals` | crates/hivebear-coordinator/src/main.rs:240-249 | hands out the whole queue and empties it |
| `CoordinatorServer.CoordinatorState.ClaimKarma` | crates/hivebear-coordinator/src/main.rs:335-387 | awards or refuses in the order of the checks |
| `CoordinatorServer.CoordinatorState.PruneTick` | crates/hivebear-coordinator/src/main.rs:66-83 | visiting the entries one by one in any order removes exactly the stale nodes with their queues |
| `CoordinatorServer.CoordinatorState.Matchmake` | crates/hivebear-coordinator/src/main.rs:260-301 | answers with the nodes sorted by karma, for any iteration order of the map |
| `CoordinatorProofs.SignalsAreConserved` | crates/hivebear-coordinator/src/main.rs:66-249 | over every run a peer's accepted signals in order are those taken from its queue followed by the queue, which never exceeds 50 |
| `CoordinatorProofs.PollsDeliverEverything` | crates/hivebear-coordinator/src/main.rs:198-249 | unless the peer is dropped, polls deliver every accepted signal once and in order |
| `CoordinatorDelivery.PollHandsOverAll` | crates/hivebear-coordinator/src/main.rs:240-249 | after any run a poll answers with all accepted signals not taken before and leaves none behind |
| `CoordinatorDelivery.PolledPeerHasEverything` | crates/hivebear-coordinator/src/main.rs:218-249 | right after a poll a peer that was never dropped has been handed every accepted signal, once and in order |
| `CoordinatorDelivery.SignalIsAcceptedIff` | crates/hivebear-coordinator/src/main.rs:218-233 | a signal is accepted exactly when fewer than 50 accepted ones wait for its peer, and then waits behind them |
| `CoordinatorProofs.TickKeepsUnregisteredQueues` | crates/hivebear-coordinator/src/main.rs:73-81 | a tick clears exactly the queues of the nodes it prunes |
| `CoordinatorProofs.KarmaLedger` | crates/hivebear-coordinator/src/main.rs:335-387 | over every run accepted receipts have distinct keys, exactly these are marked processed, and a balance is the sum of that worker's accepted tokens |
| `CoordinatorDelivery.ClaimIsAnswered` | crates/hivebear-coordinator/src/main.rs:335-387 | what a claim is answered, from the run alone, with the limits written out |
| `CoordinatorDelivery.AwardedIff` | crates/hivebear-coordinator/src/main.rs:335-387 | a claim is awarded exactly when it is new, of 1 to 100000 tokens, and of at most 5000 unless its client is listed |
| `CoordinatorDelivery.AwardIsRecorded` | crates/hivebear-coordinator/src/main.rs:365-378 | an awarded receipt is recorded with the time of its claim, and none is ever forgotten |
| `CoordinatorProofs.TotalIsAllTokens` | crates/hivebear-coordinator/src/main.rs:367-374 | all balances together are all accepted tokens |
| `CoordinatorProofs.KarmaIsBounded` | crates/hivebear-coordinator/src/main.rs:359-374 | total karma is at most 100000 per processed receipt, so balances stay within 64 bits |
| `CoordinatorProofs.KeyIsInjective` | crates/hivebear-coordinator/src/main.rs:342 | colon-free client ids make the receipt key determine client, nonce and timestamp |
| `CoordinatorProofs.SameKeyIff` | crates/hivebear-coordinator/src/main.rs:342 | two receipts share a key exactly when timestamps and the joined client and nonce are equal |
| `CoordinatorProofs.KeyCollision` | crates/hivebear-coordinator/src/main.rs:342 | without that, different receipts share a key |
| `CoordinatorProofs.ConflictIffAlreadyAwarded` | crates/hivebear-coordinator/src/main.rs:341-348 | with colon-free ids a claim conflicts exactly when the same client, nonce and timestamp were awarded before |
| `CoordinatorProofs.HighClaimsNeedContact` | crates/hivebear-coordinator/src/main.rs:350-357 | a claim above 5000 tokens is awarded only while its client has been in contact and not timed out |
| `CoordinatorProofs.ListedIff` | crates/hivebear-coordinator/src/main.rs:66-161 | a node is listed exactly when it has been in contact and no tick since has found it silent for 60 seconds |
| `CoordinatorDelivery.ListedInfo` | crates/hivebear-coordinator/src/main.rs:128-161 | a listed node shows what it said of itself in its last contact |
| `CoordinatorProofs.LiveNodeIsNeverPruned` | crates/hivebear-coordinator/src/main.rs:66-161 | a node whose gaps between contacts stay under 60 seconds is listed until it deregisters |
| `CoordinatorProofs.SilentNodeIsGone` | crates/hivebear-coordinator/src/main.rs:66-83 | with ticks at most 15 seconds apart a silent node is gone 75 seconds after its last contact |
| `CoordinatorMatching.NodesAreKeyedByOwnId` | crates/hivebear-coordinator/src/main.rs:128-161 | over every run each node is stored under the id it announces |
| `CoordinatorMatching.RankingIsByTokens` | crates/hivebear-coordinator/src/main.rs:260-301 | after every run the ranking lists each listed node once, by falling sum of its accepted tokens |
| `CoordinatorDelivery.RankedPeerShows` | crates/hivebear-coordinator/src/main.rs:268-277 | a listed node stands in a ranking with its last address and all tokens awarded to it |
| `CoordinatorDelivery.TierByTokens` | crates/hivebear-coordinator/src/main.rs:281-287 | 500 awarded tokens make a VIP, one a contributor |
| `Offload.CalculateOffloadWithMesh` | crates/hivebear-inference/src/offload.rs:30-103 | the tier-by-tier computation on the remaining layers yields the placement |
| `Offload.CalculateOffload` | crates/hivebear-inference/src/offload.rs:17-24 | the placement without mesh |
| `Offload.LayersAreConserved` | crates/hivebear-inference/src/offload.rs:60-103 | tiers never exceed the number of layers, with equality exactly when the disk flag is off |
| `Offload.SumOfParts` | crates/hivebear-inference/src/offload.rs:34 | the memory of several GPUs is added up, modulo 2^64 |
| `Offload.Amounts` | crates/hivebear-inference/src/offload.rs:49-58 | 256 KiB of cache for each token of context, and layers of equal size, rounded down |
| `Offload.WorkedExample` | crates/hivebear-inference/src/offload.rs:30-103 | two GPUs, RAM, mesh and disk share a model of 32 layers |
| `Offload.PlacementIsFeasible` | crates/hivebear-inference/src/offload.rs:49-91 | each tier's layers fit its memory, a non-zero GPU share beside the KV cache |
| `Offload.GreedyIsOptimal` | crates/hivebear-inference/src/offload.rs:26-103 | no feasible split has more on the GPU; with harmless casts none leaves fewer layers over or prefers the CPU more |
| `Offload.OptimalIff` | crates/hivebear-inference/src/offload.rs:62-91 | fewest layers are left over if and only if the tiers, with the quotients as cast, have room for all layers or the casts lose nothing that is needed |
| `Offload.DiskIffNoRoom` | crates/hivebear-inference/src/offload.rs:92-96 | disk is used exactly when they have no room for all |
| `Offload.CastLosesNineLayers` | crates/hivebear-inference/src/offload.rs:62-67 | with 4 GiB of RAM and layers of one byte nine layers go to disk that would have fit |
| `Offload.CastsAreHarmlessIff` | crates/hivebear-inference/src/offload.rs:62-91 | the cast condition on the inputs holds exactly when CPU and mesh take all that fits |
| `Offload.SmallQuotientsAreHarmless` | crates/hivebear-inference/src/offload.rs:62-91 | quotients below 2^32 satisfy it |
| `Offload.CpuOnlyFitsIff` | crates/hivebear-inference/src/offload.rs:37-47 | without GPU and mesh the placement is feasible exactly when all layers fit the RAM |
| `Offload.CpuOnlyOverflows` | crates/hivebear-inference/src/offload.rs:37-47 | a model of 10 bytes is placed in 5 bytes of RAM |
| `PathOrder.Sort` | crates/hivebear-registry/src/storage.rs:63 | a sorted permutation |
| `PathOrder.StringLeIff` | crates/hivebear-registry/src/storage.rs:63 | names are ordered by their first difference |
| `PathOrder.PathLeIff` | crates/hivebear-registry/src/storage.rs:63 | and paths by their first different component |
| `Storage.FindPartialFiles` | crates/hivebear-registry/src/storage.rs:40-65 | the worklist terminates with the sorted files of the recursive tree definition, each as often |
| `StorageReports.BagMember` | crates/hivebear-registry/src/storage.rs:40-65 | the recursive definition holds exactly the partial files at depth at most 3 reached without entering a dot-directory |
| `StorageReports.WalkerIsExact` | crates/hivebear-registry/src/storage.rs:40-65 | what the walker returns is exactly those files, each once |
| `StorageReports.MakeReport` | crates/hivebear-registry/src/storage.rs:103-175 | orphans are the untracked directories without partials, partials are all others' files with the owning model id and file name |
| `StorageReports.FindOrphans` | crates/hivebear-registry/src/storage.rs:212-235 | all untracked top-level directories; an unreadable root is an error |
| `StorageReports.UntrackedByEntry` | crates/hivebear-registry/src/storage.rs:212-235 | the untracked directories are those entries whose path the index does not hold, in listing order |
| `StorageReports.OrphansByEntry` | crates/hivebear-registry/src/storage.rs:103-175 | the orphans are those of them without a partial file at depth at most 3 outside dot-directories |
| `StorageReports.PartialsByEntry` | crates/hivebear-registry/src/storage.rs:103-175 | and the partials are the files of all of them |
| `StorageReports.OrphansAgree` | crates/hivebear-registry/src/storage.rs:103-235 | the report's orphans are exactly the listed orphans that own no reported partial |
| `ChatDatabases.ChatDatabase.CreateConversation` | crates/hivebear-persistence/src/db.rs:64-83 | adds a row with both times equal, or fails on a used id |
| `ChatDatabases.ChatDatabase.AddMessage` | crates/hivebear-persistence/src/db.rs:142-182 | next number, insert and touch as one step, or no change when a key constraint fails |
| `ChatDatabases.ChatDatabase.GetMessages` | crates/hivebear-persistence/src/db.rs:114-139 | exactly the stored rows of that conversation, each as often as stored, by rising number |
| `ChatDatabases.ChatDatabase.ListConversations` | crates/hivebear-persistence/src/db.rs:85-111 | one line for each stored conversation with the number of its messages, latest update first |
| `ChatDatabases.ChatDatabase.DeleteConversation` | crates/hivebear-persistence/src/db.rs:185-196 | removes the row and, by cascade, its messages, or reports the missing id |
| `ChatDatabaseProofs.MaximumIs` | crates/hivebear-persistence/src/db.rs:154-159 | the largest number among the rows in whatever order they are stored, 0 for none |
| `ChatDatabaseProofs.SameRefusals` | crates/hivebear-persistence/src/db.rs:36-60 | the tables refuse exactly the operations the simple log refuses |
| `ChatDatabaseProofs.RunsRefine` | crates/hivebear-persistence/src/db.rs:64-196 | after every run the two tables represent the map from conversation to message list |
| `ChatDatabaseProofs.MessagesReadBackInOrder` | crates/hivebear-persistence/src/db.rs:114-182 | after every run any answer to the message query is what was added, in that order, numbered 1..n |
| `ChatDatabaseProofs.NoOrphanMessages` | crates/hivebear-persistence/src/db.rs:45-55 | after every run each message's conversation exists |
| `ChatDatabaseProofs.OthersAreUntouched` | crates/hivebear-persistence/src/db.rs:142-196 | no operation on another conversation changes this one's messages |
| `ChatDatabaseProofs.ListIsTheLog` | crates/hivebear-persistence/src/db.rs:85-111 | after every run any answer to the list query shows each conversation once with the number of messages added, latest update first |

## Left out

- Real sockets, redirects, headers, tokens, timing and progress callbacks: a server is a function from requests to answers.
- File-system errors when opening, writing, syncing or renaming (`write_meta_atomic` is one atomic step).
- Concurrent downloads into the same files, and two running calls with the same model id.
- `list_partial` and `cleanup_partial`: directory scans that would only add easy members.
- `DownloadProofs.ResumedDownloadsAreExact`: states nothing about servers that send other bytes than the source, for which `PromotionGuard` holds, or that reveal no size, for which `FinishedFilesAreHeads` does.
- `SchemaCompilers.SchemaCompiler.JsonSchemaToGbnf`: yields the rules as syntax trees, not their text; parsing of GBNF text and its alphabet for rule names are not modelled, literals keep their raw text and are unescaped by the semantics.
- `SchemaFaults.MeansWhatIsWantedIff`: other wishes than the three choices of a style are not considered, such as pairs in any order, blanks in front of the commas of an array or richer open arrays.
- `SchemaJson.DerivesOnlyJsonIff`: says nothing about texts that are JSON but do not conform to the schema; the reading in each style does.
- `SchemaTheorems.CompilationPreservesMeaning`: not claimed for names or literals with quotes or backslashes; what the grammar derives for those is `LanguageIsDerived`, and `EveryNodeMeansItselfIff` shows when it is what was meant.
- Formatting of JSON numbers: a number keeps its literal text.
- Gemma, Phi-3 and Generic templates and template detection; JSON text of tool schemas is a given string.
- Authentication of nodes, request parsing, health, dashboard, peer filtering and balance queries of the coordinator; node ids are their hex text and signal payloads are strings.
- Interleaving inside one handler: each handler and each tick is one step, and processed receipts keep their time without using it.
- Offload: available RAM after the floating-point factor 0.85 is an input.
- Symbolic links, sizes, times and index contents in the storage report; file names are strings.
- Renaming and searching conversations, parsing of roles and timestamps (times are integers), message numbers beyond 64 bits, and SQLite itself: the two tables are sequences of rows.
