# Control plane: verified models

A Dafny model of the algorithms and state machines that decide what the platform does: who is let
through, which account or provider serves a task, what is kept of a text. Every module follows one
component of the repository. Where the source updates an object, the model is a class whose methods are
proved against functions of its state, and the guarantees are lemmas about those functions over whole
runs; where it computes a value, the model is a function and its properties are lemmas.

| file | component |
|---|---|
| `TokenBucket.dfy`, `SlidingWindow.dfy` | the rate limiters and the gateway quota |
| `RecursiveSplitter.dfy`, `SplitterGuarantees.dfy`, `FixedSize.dfy`, `LineChunks.dfy`, `DocumentLines.dfy` | the chunkers |
| `Cleaning.dfy`, `CleaningRules.dfy`, `Windows.dfy`, `Ingestion.dfy` | cleaning pages and cutting them into windows |
| `Text.dfy`, `Tokens.dfy`, `Greedy.dfy`, `Shortening.dfy`, `Truncation.dfy`, `TruncationLimits.dfy` | token estimate and message truncation |
| `ContextWindow.dfy`, `KeptMessages.dfy`, `CarriedContent.dfy`, `FittedContent.dfy`, `Generation.dfy` | context fitting and completion accounting |
| `RealAlgebra.dfy`, `CauchySchwarz.dfy`, `VectorSimilarity.dfy`, `TokenSimilarity.dfy` | vector and token similarity |
| `Ranking.dfy`, `VectorIndex.dfy`, `RagQuery.dfy` | ranking and the two searches |
| `AccountPool.dfy`, `Rotation.dfy`, `RotationGuarantees.dfy`, `WakeTime.dfy` | account pool and rotation service |
| `Executors.dfy`, `Resume.dfy`, `ResumeGuarantees.dfy` | executors and the resume loop |
| `Quota.dfy`, `Backoff.dfy`, `Scheduler.dfy`, `TechLead.dfy`, `Seats.dfy` | quota ledger, admission and retries, coordinator, seats |
| `ApiKeys.dfy`, `CircuitBreaker.dfy` | key store and provider routing |

Clocks are real numbers, in whole-run results assumed not to go back where the lemma says so. Square root
and logarithm are parameters with the properties used. Logins, dispatches, queue answers, token
providers, jitter, fresh ids and hashes are parameters too.

## Where the code falls short of the obvious claim

Each is stated with a case in which it fails and the exact condition under which it holds:

- `_truncate_message` does not terminate on some messages (`TruncationCanHang`; exactly: `TruncationEndsIff`, `RunsForeverIff`).
- `RecursiveTextSplitter` can exceed `chunk_size` (`ChunkSizeCanBeExceeded`; exactly: `SizeRespectedIff`).
- `FixedSizeChunker` does not terminate on a long text with an overlap of at least the size (`LoopCanHang`; exactly: `EndsIff`).
- Both advertised `Retry-After` values are truncated and can be too short (the two `RetryAfterCanFallShort`; exactly: the two `RetryAfterSufficesIff`).
- Two rate checks whose limit types contain a colon can share a bucket (`ColonsCanConfuse`; exactly: `KeysCollideIff`, and never without a colon: `KeysAreEqualIff`).
- The parking wake time can be later than the next selectable account when candidates outnumber login attempts (`WakeTimeCanBeLate`; exactly: `NeverLateIff`), and for an agent pinned to a vendor it can be too early, since it ignores the vendor (`WakeTimeCanBeEarly`; exactly: `WakeTimeExactIff`).
- `AccountPool.register` can replace a leased account (`RegisterCanOrphanALease`; exactly: `RegisterKeepsInvIff`).
- `fit_context_window` can lose the newest user message when the system message takes the room (`UserMessageCanBeLost`; exactly: `UserMessageKeptIff`).
- `fit_context_window` can reorder messages (`LaterAnswerMovesForward`; exactly: `OutputIsChronologicalIff`, and for conversations that fit whole `WholeChatKeepsOrderIff`).
- `SeatPool.release` puts a seat without references into its queue a second time (`FreeSeatCanBeReleased`; exactly: `Seats.ReleaseKeepsInvIff`).
- `SeatPool.acquire` loses a seat when its token refresh raises (`FailedRefreshLosesSeat`, `HeldUntilReleased`; exactly when, the contract of `Acquire` says).
- Admission does not occupy a slot, so `max_concurrent` does not bound the admitted tasks (`CeilingCanBePassed`; exactly: `AllDispatchedIff`, `CeilingKeptIff`).
- An estimate of zero counts as none, and the task's own budget is charged (`ZeroEstimateIsCharged`; exactly: `EstimateIsChargedIff`).
- `max_fanout` bounds the workers a planner is given, not the tasks it returns (`FanoutCanBeExceeded`; exactly: `PlanFollowsPlanner`).
- A revoked key can be rotated into an active one like any other (`RevokedKeyCanBeRotated`, with the exact condition under which that one is accepted).

## Model

| member | source | states |
|---|---|---|
| `TokenBucket.RateLimitStore.GetOrSet` | agnostic-ai-platform/backend/app/rate_limiter.py:32-36 | An absent entry becomes the default and a present one is returned unchanged; no other entry changes |
| `TokenBucket.RateLimitStore.Update` | agnostic-ai-platform/backend/app/rate_limiter.py:38-40 | Exactly the named entry is overwritten |
| `TokenBucket.RateLimitStore.CheckRateLimit` | agnostic-ai-platform/backend/app/rate_limiter.py:46-80 | One check decides by the level of the bucket under ratelimit:type:identifier, a full one if there is none, and writes that entry alone; for limit types without a colon the entry of every other type or identifier stays what it was |
| `TokenBucket.KeysAreEqualIff` | agnostic-ai-platform/backend/app/rate_limiter.py:57 | For limit types without a colon, two checks share an entry if and only if limit type and identifier are both the same |
| `TokenBucket.KeysCollideIff` | agnostic-ai-platform/backend/app/rate_limiter.py:57 | For any limit types, two different checks share an entry if and only if one type is the other with a colon and the part by which the other identifier is longer |
| `TokenBucket.ColonsCanConfuse` | agnostic-ai-platform/backend/app/rate_limiter.py:57 | With a colon in a limit type, two different checks can share an entry |
| `TokenBucket.TypesDoNotShareABucket` | agnostic-ai-platform/backend/app/rate_limiter.py:96-130 | On a new store a check of one limit type, whatever it does, leaves a check of another type for the same identifier a full bucket of its own |
| `TokenBucket.RefillsInAMinute` | agnostic-ai-platform/backend/app/rate_limiter.py:60-70 | An empty bucket fills evenly and is full after one minute |
| `TokenBucket.LevelsStayWithinCapacity` | agnostic-ai-platform/backend/app/rate_limiter.py:54-80 | Over any run the stored level stays within [0, largest limit used], and every request finds a level within [0, limit] of its own limit |
| `TokenBucket.AdmittedWithinWindow` | agnostic-ai-platform/backend/app/rate_limiter.py:46-80 | In every run with a clock that does not go back, the cost admitted between any instants s and t is at most limit + limit/60 * (t - s) |
| `TokenBucket.LazyIsEager` | agnostic-ai-platform/backend/app/rate_limiter.py:65-80 | The bucket that is refilled lazily, and not written on denial, decides every run exactly as one refilled at every call |
| `TokenBucket.RetryAfterSufficesIff` | agnostic-ai-platform/backend/app/rate_limiter.py:76-80 | For every limit: a refused request that waits the advertised time is admitted if and only if the limit is positive, its cost is at most the capacity, and the exact wait was at most one second or a whole number of seconds |
| `TokenBucket.NoLimitNeverAdmits` | agnostic-ai-platform/backend/app/rate_limiter.py:79-80 | With a limit of zero or below a refused request is told to wait a minute and is refused at all times |
| `TokenBucket.RetryAfterCanFallShort` | agnostic-ai-platform/backend/app/rate_limiter.py:76-80 | A concrete request for which the truncated Retry-After is too short |
| `TokenBucket.KeysAreIndependent` | agnostic-ai-platform/backend/app/rate_limiter.py:46-80 | Under any interleaving of calls, each with its own limit, an entry is what the calls with its own key alone make of it |
| `SlidingWindow.HitLog.RateLimitResponse` | control-plane/app/security.py:120-139 | The middleware lets a request through exactly when its client has room in its window, with the source's Retry-After otherwise; other clients are untouched |
| `SlidingWindow.HitLog.CheckQuota` | control-plane/llm_gateway/service.py:134-143 | The gateway's quota check, over sixty seconds, by the same specification |
| `SlidingWindow.TrimmedDequeIsTrimmedHistory` | control-plane/app/security.py:128-138 | After any run, the trimmed deque is the whole admitted history trimmed to the window: eviction loses nothing |
| `SlidingWindow.RoomIsCountedOverFullHistory` | control-plane/llm_gateway/service.py:138-143 | The deque decides as a count over the full history of admissions does |
| `SlidingWindow.NoWindowOverfull` | control-plane/app/security.py:128-138 | Over any run, no interval (t - W, t], wherever it ends, holds more than N admitted requests of a client |
| `SlidingWindow.RefusedIffOwnWindowFull` | control-plane/app/security.py:135-137 | A request is refused if and only if exactly N admitted requests lie in its own window |
| `SlidingWindow.ReadmittedFrom` | control-plane/app/security.py:133-138 | A refused client is admitted again exactly from the moment its oldest counted admission leaves the window |
| `SlidingWindow.ClientsAreIndependent` | control-plane/app/security.py:127-138 | Under any interleaving of clients, a deque is what the client's own requests alone leave |
| `SlidingWindow.AdmissionIsPerClient` | control-plane/llm_gateway/service.py:137-143 | So whatever others do, a client is let through if and only if fewer than N of its own admitted requests lie in its window |
| `SlidingWindow.RetryAfterSufficesIff` | control-plane/app/security.py:136 | The advertised wait is long enough if and only if the exact wait is at most one second or whole |
| `SlidingWindow.RetryAfterCanFallShort` | control-plane/app/security.py:136 | A concrete client that waits the advertised second and is refused again |
| `RecursiveSplitter.SplitText` | agnostic-ai-platform/backend/app/chunking.py:36-40 | The public method computes the chunks for the separators paragraph break, line break, full stop with space, space, nothing; what these chunks are say CutAtFirstSeparator and ChunksAreGroups |
| `RecursiveSplitter.SplitRecursive` | agnostic-ai-platform/backend/app/chunking.py:42-82 | The loop and the recursion terminate for every text, separators and size, and compute the specified chunks |
| `RecursiveSplitter.ChooseSeparator` | agnostic-ai-platform/backend/app/chunking.py:45-53 | The first separator that occurs, or the empty one, with what the recursion may still use |
| `SplitterGuarantees.CutAtFirstSeparator` | agnostic-ai-platform/backend/app/chunking.py:36-56 | A text within the size is its only chunk; a longer one is cut at its paragraph breaks if it has any, else at its line breaks, else at the ends of sentences, else at its spaces, else into characters |
| `SplitterGuarantees.ChosenIs` | agnostic-ai-platform/backend/app/chunking.py:45-53 | For any separators, the first of them that occurs is chosen, an empty one always occurring |
| `SplitterGuarantees.SplitOnIsCut` | agnostic-ai-platform/backend/app/chunking.py:56 | The pieces, put together with the separator, are the text, and no separator occurs in a piece or begins in it |
| `SplitterGuarantees.CutIsUnique` | agnostic-ai-platform/backend/app/chunking.py:56 | A text is cut into such pieces in one way only |
| `SplitterGuarantees.ChunksAreGroups` | agnostic-ai-platform/backend/app/chunking.py:58-82 | If all pieces at the first separator that occurs are within the size, the chunks are those pieces in greedy groups, and no two neighbouring chunks fit together with the separator between them |
| `SplitterGuarantees.GroupingIsUnique` | agnostic-ai-platform/backend/app/chunking.py:58-82 | Pieces can be grouped greedily in one way only |
| `SplitterGuarantees.LongWordIsSliced` | agnostic-ai-platform/backend/app/chunking.py:49-82 | A long text without any separator is its characters in greedy groups |
| `SplitterGuarantees.LongFirstPiece` | agnostic-ai-platform/backend/app/chunking.py:68-74 | A first piece that is too large is cut with the separators behind the first of the list |
| `RecursiveSplitter.ChunksInOrder` | agnostic-ai-platform/backend/app/chunking.py:42-82 | Chunks are disjoint contiguous substrings in order, and every gap before, between and after them consists of separator characters |
| `RecursiveSplitter.SplittingKeepsContent` | agnostic-ai-platform/backend/app/chunking.py:36-82 | No character other than newline, full stop and space is lost, duplicated or moved |
| `RecursiveSplitter.SizeRespectedIff` | agnostic-ai-platform/backend/app/chunking.py:58-80 | For every text, separators and chunk_size: all chunks respect the size if and only if no too large piece is met while another chunk is open or when no separator is left |
| `RecursiveSplitter.SmallPiecesFit` | agnostic-ai-platform/backend/app/chunking.py:56-77 | It is enough that the first separator that occurs cuts the text into pieces within the size |
| `RecursiveSplitter.ChunkSizeCanBeExceeded` | agnostic-ai-platform/backend/app/chunking.py:64-70 | A concrete text whose chunk is twice the chunk size |
| `FixedSize.SplitText` | agnostic-ai-platform/backend/app/chunking.py:93-111 | The loop cuts, wherever it stands, the slice that begins there, and stops where the specification of its positions stops; a short text is one chunk |
| `FixedSize.EndsIff` | agnostic-ai-platform/backend/app/chunking.py:98-109 | The loop ends if and only if the overlap is smaller than the size or the text is empty |
| `FixedSize.LoopCanHang` | agnostic-ai-platform/backend/app/chunking.py:101-109 | A concrete length, size and overlap for which every round starts at the beginning again |
| `FixedSize.ChunksRebuildText` | agnostic-ai-platform/backend/app/chunking.py:98-111 | For 0 <= overlap < size the chunks are the windows at multiples of size - overlap up to the first that reaches the end, and dropping the overlaps rebuilds the text |
| `LineChunks.ChunkDocument` | control-plane/rag_pipeline/service.py:186-216 | The lines of a document are packed into the chunking that the size and overlap define |
| `LineChunks.ChunkDocuments` | control-plane/rag_pipeline/service.py:181-216 | Every document is split into lines and chunked, one after another; which lines a text has say LinesAreRecovered and EveryTextIsItsLines, and what a record names says RecordsNameTheirLines |
| `LineChunks.SplittingKeepsText` | control-plane/rag_pipeline/service.py:183 | Splitting into lines loses and moves nothing but the line breaks, and leaves none in a line |
| `DocumentLines.LinesAreRecovered` | control-plane/rag_pipeline/service.py:183 | For any lines without breaks in them, any breaks between them and a last line that has a break or is not empty: splitting the text gives back exactly these lines, empty ones included, and a final break adds none |
| `DocumentLines.EveryTextIsItsLines` | control-plane/rag_pipeline/service.py:183 | Every text is the lines it is split into, with breaks between them |
| `DocumentLines.BlankLineCounts` | control-plane/rag_pipeline/service.py:183 | A concrete text whose blank line is a line |
| `DocumentLines.ChunkIsItsLines` | control-plane/rag_pipeline/service.py:190-216 | Chunk k has number k + 1, and its text splits into exactly the lines of the document that its line numbers name |
| `DocumentLines.RecordsNameTheirLines` | control-plane/rag_pipeline/service.py:181-216 | Every record of the index carries the path of its document, an identifier made of path and number, and exactly the lines of that document which its line numbers name |
| `DocumentLines.ChunksAreFull` | control-plane/rag_pipeline/service.py:190-208 | A chunk that is not the last has no room for the next line of the document |
| `DocumentLines.RepeatedLinesAre` | control-plane/rag_pipeline/service.py:203-205 | The lines repeated from the chunk before take at most the overlap, and one more would take more |
| `LineChunks.IndexUnique` | control-plane/rag_pipeline/service.py:181-216 | The documents determine all chunks of the index |
| `LineChunks.OverlapLines` | control-plane/rag_pipeline/service.py:348-358 | The repeated lines are the longest run of whole lines at the end of the chunk within the overlap |
| `LineChunks.ChunkingUnique` | control-plane/rag_pipeline/service.py:181-216 | A document has exactly one such chunking, so texts, numbers and line ranges are all determined |
| `LineChunks.ChunksRebuildDocument` | control-plane/rag_pipeline/service.py:190-216 | Dropping repeated lines and concatenating rebuilds the document; ends strictly increase and no line is skipped |
| `LineChunks.ChunkSizeBound` | control-plane/rag_pipeline/service.py:190-208 | A chunk exceeds the size only by reaching at most the overlap plus the longest line |
| `Cleaning.CleaningIsIdempotent` | agnostic-ai-platform/backend/app/rag_ingestion.py:140-144 | Cleaning a cleaned text changes nothing |
| `Cleaning.CleanIffFixed` | agnostic-ai-platform/backend/app/rag_ingestion.py:140-144 | The results of cleaning, and the texts it leaves alone, are exactly those without carriage returns, tabs, double spaces, triple line breaks and outer blanks |
| `Cleaning.SqueezeBreaksHead` | agnostic-ai-platform/backend/app/rag_ingestion.py:143 | A run of line breaks keeps its first two |
| `Cleaning.CleaningKeepsWords` | agnostic-ai-platform/backend/app/rag_ingestion.py:140-144 | Cleaning loses, joins and splits no word |
| `CleaningRules.RulesKeepCleaned` | agnostic-ai-platform/backend/app/rag_ingestion.py:140-144 | Six rewritings do not change what a text is cleaned to: either carriage return form to a line feed, a tab to a space, two spaces to one, three line breaks to two, and a blank at an end to nothing |
| `CleaningRules.OnlyOneWayToClean` | agnostic-ai-platform/backend/app/rag_ingestion.py:140-144 | Whatever keeps to these rules and leaves clean texts alone cleans every text as this does |
| `Windows.StartIsMultiple` | agnostic-ai-platform/backend/app/rag_ingestion.py:136 | Window k starts at k times (size - overlap) |
| `Windows.WindowsCover` | agnostic-ai-platform/backend/app/rag_ingestion.py:115-117 | For every size and smaller overlap, every position of the text lies in a window |
| `Windows.NeighboursOverlap` | agnostic-ai-platform/backend/app/rag_ingestion.py:116-136 | Window k + 1 begins exactly the overlap before the end of window k, and only the last reaches the end |
| `Windows.CountIs` | agnostic-ai-platform/backend/app/rag_ingestion.py:115-136 | The number of windows, in closed form, is the one at which the loop stops |
| `Ingestion.ChunkLoadedPages` | agnostic-ai-platform/backend/app/rag_ingestion.py:98-137 | Both ValueErrors, and otherwise the pages' chunks in order |
| `Ingestion.ChunkPage` | agnostic-ai-platform/backend/app/rag_ingestion.py:113-136 | The window loop terminates and keeps exactly the windows that are not blank, numbered in turn |
| `Ingestion.EveryCharacterIsInAChunk` | agnostic-ai-platform/backend/app/rag_ingestion.py:115-136 | Every character of a cleaned page that is not blank lies in an emitted chunk, at its own place |
| `Ingestion.PageChunksAreWindows` | agnostic-ai-platform/backend/app/rag_ingestion.py:109-136 | Each chunk is a stripped window at a multiple of size - overlap, numbered consecutively, at most size long; a page has none exactly when it has no words |
| `Truncation.KeepWords` | control-plane/ai_runtime/context_window.py:44-50 | The greedy loop keeps the specified word prefix |
| `Truncation.KeptIsMaximal` | control-plane/ai_runtime/context_window.py:44-50 | The kept prefix is the longest that leaves room for the marker, although the loop only looks one word ahead |
| `Truncation.MarkerCostsAtMostThree` | control-plane/ai_runtime/context_window.py:19-29 | Appending the marker to a stripped text raises the estimate by at most three |
| `Tokens.EstimateIsLeast` | control-plane/ai_runtime/context_window.py:22-29 | The estimate is the least number of tokens that allows four characters each, blanks at the ends aside, and one a word |
| `Tokens.WordsOfJoin` | control-plane/ai_runtime/context_window.py:44-52 | Words joined by single spaces are split again into the same words |
| `Truncation.TruncateMessage` | control-plane/ai_runtime/context_window.py:40-59 | The whole truncation, on every input on which the source terminates; the result fits or is the bare marker |
| `Truncation.TruncationEndsIff` | control-plane/ai_runtime/context_window.py:55-57 | The source's shrink loop ends if and only if the closed-form condition for running forever does not hold |
| `Truncation.FirstWordFits` | control-plane/ai_runtime/context_window.py:40-59 | If the first word and the marker fit, the shrink loop is not entered, the result is the maximal word prefix with the marker, and it is within budget |
| `Shortening.LoopEndsIff` | control-plane/ai_runtime/context_window.py:55-57 | For any cost under which the bare marker is cheapest, the shrink loop ends exactly when it need not run or its fixed point is within budget |
| `TruncationLimits.RunsForeverIff` | control-plane/ai_runtime/context_window.py:40-57 | For every message and budget: exactly which never terminate, by the first word, the budget and, for a message that begins with a blank, the first field of its cut |
| `TruncationLimits.TruncationCanHang` | control-plane/ai_runtime/context_window.py:55-57 | A concrete message and budget on which the source does not terminate |
| `ContextWindow.FitContextWindow` | control-plane/ai_runtime/context_window.py:62-128 | The errors and the two phases compute the specified selection; ContentOfKept, MandatoryKeptIff, OtherKeptIff, OutputPositions and HangsIff say what that is |
| `ContextWindow.PromptFits` | control-plane/ai_runtime/context_window.py:84-128 | Selected tokens are exactly what was taken from the budget, so the prompt is at most window - output, the dropped count is right, and every selected message is a source message or a truncated mandatory one |
| `ContextWindow.DroppedWouldOverflow` | control-plane/ai_runtime/context_window.py:105-118 | Every dropped message that is neither system nor mandatory would overflow the room finally left |
| `FittedContent.ContentOfKept` | control-plane/ai_runtime/context_window.py:40-106 | Every message in the output keeps its role; an optional one is unchanged; a mandatory one is unchanged if it fits the room it met, else carries the longest word prefix of its own content that leaves room for the marker, else the bare marker, a message that begins with a blank being cut by characters first |
| `CarriedContent.CarriedIsUnique` | control-plane/ai_runtime/context_window.py:40-59 | A message and the room it met leave no choice of content |
| `FittedContent.MandatoryKeptIff` | control-plane/ai_runtime/context_window.py:93-106 | A mandatory message is in the output if and only if it fits the room it met or that is at least seven tokens |
| `FittedContent.OtherKeptIff` | control-plane/ai_runtime/context_window.py:108-118 | An optional message is in the output if and only if it fits beside the mandatory ones there and the newer optional ones there |
| `FittedContent.OtherSystemDropped` | control-plane/ai_runtime/context_window.py:109-113 | A system message other than the first is never in the output |
| `FittedContent.OutputPositions` | control-plane/ai_runtime/context_window.py:95-120 | The first system message stands first, the other mandatory message last, the rest between them in the order of the source |
| `FittedContent.TruncatedCountIs` | control-plane/ai_runtime/context_window.py:99-103 | The count of truncated messages is that of the mandatory ones which did not fit the room they met |
| `FittedContent.MandatoryIff` | control-plane/ai_runtime/context_window.py:89-93 | Mandatory are the first system message and the newest user message, or the last message if there is neither |
| `FittedContent.HangsIff` | control-plane/ai_runtime/context_window.py:98-103 | With good arguments there is an answer, unless a mandatory message does not fit the room it meets and its truncation to that room never ends |
| `KeptMessages.PlacedIff` | control-plane/ai_runtime/context_window.py:98-106 | A mandatory message is placed if and only if it fits as it is or at least seven tokens are left |
| `KeptMessages.SystemMessageKeptIff` | control-plane/ai_runtime/context_window.py:89-106 | The first system message is in the output if and only if it fits into the whole budget or that is at least seven tokens |
| `KeptMessages.UserMessageKeptIff` | control-plane/ai_runtime/context_window.py:90-106 | The newest user message is in the output if and only if it fits into what the system message leaves or at least seven tokens are left |
| `KeptMessages.UserMessageCanBeLost` | control-plane/ai_runtime/context_window.py:98-106 | A concrete conversation whose system message takes all the room |
| `ContextWindow.SelectionIs` | control-plane/ai_runtime/context_window.py:108-120 | The output in closed form: the placed mandatory messages with the found others, in source order, at one point among them |
| `ContextWindow.OutputIsChronologicalIff` | control-plane/ai_runtime/context_window.py:95-120 | The output keeps the order of the source if and only if the placed mandatory messages do and every other message that still finds room lies between the two sides of the insertion point |
| `ContextWindow.WholeChatKeepsOrderIff` | control-plane/ai_runtime/context_window.py:88-120 | When a whole conversation fits, its order is kept if and only if the first system message comes before, and the newest user message after, all messages that are not system ones |
| `ContextWindow.OutputIsChronological` | control-plane/ai_runtime/context_window.py:84-128 | So with the first system message first and the newest user message last the order is kept, whatever room there is |
| `ContextWindow.LaterAnswerMovesForward` | control-plane/ai_runtime/context_window.py:105-118 | A concrete conversation that is reordered |
| `Generation.Complete` | control-plane/ai_runtime/generation.py:21-42 | The echo of the newest user message, with its tokens, at most the limit, and those of the prompt |
| `Generation.CutIsPrefix` | control-plane/ai_runtime/generation.py:27-31 | The cut is a prefix of the answer, and all of it if and only if no stop sequence occurs |
| `Generation.CutAtFirstListed` | control-plane/ai_runtime/generation.py:27-31 | The first listed stop sequence that occurs decides, at its first occurrence |
| `Generation.EchoIs` | control-plane/ai_runtime/generation.py:22-26 | What is echoed is the newest user message, or the last message if there is none, behind the name of the model |
| `Generation.GenerateCompletion` | control-plane/ai_runtime/generation.py:45-73 | Every error in its case, those of the request's own validation included, and otherwise the echo of the fitted messages, with prompt and completion together within the context window |
| `VectorSimilarity.ScoreWithinRange` | agnostic-ai-platform/backend/app/retrieval_chain.py:374-383 | For any two vectors of any lengths the score lies in [-1, 1], which the retrieved chunk demands |
| `VectorSimilarity.SelfScore` | agnostic-ai-platform/backend/app/retrieval_chain.py:374-383 | A vector that is not zero scores 1 against itself |
| `VectorSimilarity.OppositeScore` | agnostic-ai-platform/backend/app/retrieval_chain.py:374-383 | Turning a vector round turns its score round, and the opposite of a vector scores -1 against it |
| `VectorSimilarity.ScoreIsCosine` | agnostic-ai-platform/backend/app/retrieval_chain.py:374-383 | Times the lengths of both vectors the score is their dot product |
| `CauchySchwarz.NormalisedBound` | agnostic-ai-platform/backend/app/retrieval_chain.py:383 | A dot product over two norms that satisfies Cauchy-Schwarz is within [-1, 1] and keeps its sign |
| `Ranking.SearchIsTopK` | agnostic-ai-platform/backend/app/retrieval_chain.py:125-131 | The answer is ranked, qualifies, and leaves out only what is behind all of a full answer |
| `VectorIndex.InMemoryVectorIndex.Add` | agnostic-ai-platform/backend/app/retrieval_chain.py:122-123 | Chunks are appended |
| `VectorIndex.InMemoryVectorIndex.Search` | agnostic-ai-platform/backend/app/retrieval_chain.py:125-131 | For any top_k, the records of the specified ranking, each with the identifier, text and metadata of its chunk, and with its cosine score, which is at least the threshold and one the record accepts |
| `VectorIndex.BestIsSearch` | agnostic-ai-platform/backend/app/retrieval_chain.py:131 | A negative top_k stands for the number of answers that Python keeps |
| `VectorIndex.BestAreAnswers` | agnostic-ai-platform/backend/app/retrieval_chain.py:125-131 | That ranking holds only qualifying cosine scores, best first, at most k, and leaves a qualifying chunk out only when it is full of chunks ahead of it |
| `Ranking.TopPositive` | control-plane/rag_pipeline/service.py:157-161 | Of any list of scores the k best positive ones, ties in list order |
| `RagQuery.CosineOf` | control-plane/rag_pipeline/service.py:330-339 | The cosine summed token by token is the weighted cosine of the two counters |
| `RagQuery.Query` | control-plane/rag_pipeline/service.py:142-161 | Both ValueErrors, and otherwise the best top_k of the chunks' positive combined scores |
| `RagQuery.SelectionSharesTokens` | control-plane/rag_pipeline/service.py:153-161 | Every selected chunk shares a token with the question, and unless the selection is full every chunk that does is in it |
| `TokenSimilarity.CosineWithinRange` | control-plane/rag_pipeline/service.py:330-339 | The idf-weighted cosine over token counts lies in [0, 1] and is positive if and only if a token is shared |
| `TokenSimilarity.CombinedWithinRange` | control-plane/rag_pipeline/service.py:154-157 | The combined score lies in [0, 1.05] and is positive if and only if the chunk shares a token with the question |
| `TokenSimilarity.SelfCombined` | control-plane/rag_pipeline/service.py:154-157 | A counter that is not empty scores 1.05 against itself, whatever the weights |
| `TokenSimilarity.CosineIsWeighted` | control-plane/rag_pipeline/service.py:330-345 | Times the norms the cosine is the weighted sum over shared tokens, and times the question's tokens the overlap is the number of shared ones |
| `TokenSimilarity.IdfAtLeastOne` | control-plane/rag_pipeline/service.py:319-327 | Every weight of every index is at least one, which the ranges above need |
| `TokenSimilarity.RarerTokensWeighMore` | control-plane/rag_pipeline/service.py:319-327 | A token that occurs in fewer chunks weighs at least as much |
| `AccountPool.AccountRegistry.SelectNext` | control-plane/rotation/pool.py:44-78 | Of the eligible accounts none has a smaller priority than the selected one, none of its priority more quota left, and none equal in both a smaller id; None if and only if none is eligible |
| `AccountPool.FirstUnique` | control-plane/rotation/pool.py:71-78 | The selection order is strict, so the selected account is determined |
| `AccountPool.FirstIffBest` | control-plane/rotation/pool.py:71-78 | The first account in the selection order is the one of which that holds, and the only one |
| `AccountPool.PriorityIs` | control-plane/rotation/models.py:21-82 | An explicit priority wins; otherwise, in any letter case, codex comes before opus, claude and glm, these before antigravity, and that before any other vendor |
| `AccountPool.CandidatesAre` | control-plane/rotation/pool.py:61-68 | Eligible is exactly an account of the tenant and of the vendor, in any letter case, that is not excluded and is available or has waited until its cooldown ended |
| `StringOrder.LessIff` | control-plane/rotation/pool.py:75 | One id is smaller than another if and only if at the first difference it ends or has the smaller character |
| `AccountPool.AccountRegistry.NextWakeAt` | control-plane/rotation/pool.py:80-89 | The earliest cooldown among the tenant's waiting accounts, None if there is none |
| `AccountPool.AccountRegistry.Register` | control-plane/rotation/pool.py:33-35 | The record is added or replaced; leases stay |
| `AccountPool.AccountRegistry.Lease` | control-plane/rotation/pool.py:92-95 | Lease and status change together for a known account; an unknown one changes nothing |
| `AccountPool.AccountRegistry.Release` | control-plane/rotation/pool.py:97-101 | The lease goes, and a leased account becomes available; any other status stays |
| `AccountPool.AccountRegistry.MarkExhausted` | control-plane/rotation/pool.py:103-115 | Status, cooldown and lease of one account change as stated, nothing else |
| `AccountPool.AccountRegistry.MarkDegraded` | control-plane/rotation/pool.py:117-121 | Status, error and lease of one account change as stated, nothing else |
| `AccountPool.AccountRegistry.RefreshWindows` | control-plane/rotation/pool.py:123-135 | Exactly the waiting accounts whose cooldown has passed become available with a fresh window |
| `Rotation.RotationService.OnExhaustion` | control-plane/rotation/service.py:56-115 | Every path of an exhaustion report - thrashing, busy, unknown, rotated, parked, unimplemented - with the whole state it leaves |
| `Rotation.RotationService.TryCandidates` | control-plane/rotation/service.py:84-108 | The retry loop visits exactly the leading candidates in selection order and degrades exactly those that failed |
| `Rotation.RotationService.ResetWindowCounters` | control-plane/rotation/service.py:132-134 | Only the rotation counters are cleared |
| `RotationGuarantees.OutcomeDetermined` | control-plane/rotation/service.py:56-115 | State and logins determine outcome and new state |
| `RotationGuarantees.RotatesIff` | control-plane/rotation/service.py:84-108 | It rotates to an account if and only if the guards pass, that account can be logged in, and all better ones, fewer than the attempts, failed |
| `RotationGuarantees.RotatesToBestUsable` | control-plane/rotation/service.py:84-108 | The new account is the best usable one at entry; every better one is degraded, the old one exhausted with its cooldown, all others unchanged |
| `RotationGuarantees.RotatesToLeastPriority` | control-plane/rotation/service.py:84-99 | Of the candidates whose login does not fail none has a smaller priority than the account rotated to, none of its priority more quota left, and none equal in both a smaller id |
| `WakeTime.WakeTimeExactIff` | control-plane/rotation/service.py:110-113 | For any vendor the announced time is exact - an account of that vendor is selectable at t if and only if t has reached it - if and only if, all candidates having been tried, nobody waits or an account of that vendor is among the first to stop waiting; and otherwise some waiting account has already cooled down |
| `WakeTime.NeverLateIff` | control-plane/rotation/service.py:110-113 | For any vendor nobody is selectable before the announced time if and only if the candidates do not outnumber the attempts, or the agent's own or an untried account has already cooled down |
| `WakeTime.UnpinnedExactIff` | control-plane/rotation/service.py:110-113 | Without a pinned vendor, never late and exact are the same |
| `WakeTime.WakeReachedIff` | control-plane/rotation/pool.py:80-89 | The announced time has come if and only if some account of the tenant that was left waiting, of whatever vendor, has reached its end |
| `WakeTime.OwnAccountWakes` | control-plane/rotation/pool.py:80-89 | The agent's own account guarantees that a time is announced, no later than its own |
| `WakeTime.WakeTimeCanBeLate` | control-plane/rotation/service.py:84-113 | A concrete report after which the agent is parked for an hour although an untried account is free |
| `WakeTime.WakeTimeCanBeEarly` | control-plane/rotation/pool.py:80-89 | A concrete pinned agent that is told to wake when only another vendor's account is ready |
| `RotationGuarantees.ReachableStatesAreConsistent` | control-plane/rotation/pool.py:92-135 | In every reachable state a lease entry exists if and only if the account is leased, exhausted accounts have a cooldown, no agent is locked, no task has rotated more than the maximum |
| `RotationGuarantees.RotationRespectsLeases` | control-plane/rotation/service.py:97-104 | A rotation never takes a leased account, and an agent that held at most its account ends with at most one lease |
| `RotationGuarantees.RegisterKeepsInvIff` | control-plane/rotation/pool.py:33-35 | Registering keeps the pool consistent if and only if the record agrees with the recorded leases |
| `RotationGuarantees.RegisterCanOrphanALease` | control-plane/rotation/pool.py:33-35 | A concrete registration that leaves a lease on an account that looks available |
| `Executors.SocketDispatch` | control-plane/executors/socket.py:130-164 | Whatever the queue client answers, the events are a prefix of queued, claimed, running and one final event; which and where, by the first call that raises |
| `Executors.PollTerminalStatus` | control-plane/executors/socket.py:166-202 | The event of the first poll that settles the task or after which the executor gives up; without a timeout within max(1, max_polls) polls |
| `Executors.QueueStateIs` | control-plane/executors/socket.py:220-234 | Which states of the queue settle a task as blocked, failed or done, in any letter case |
| `Executors.LastPollIs` | control-plane/executors/socket.py:180-196 | The last poll is the first that settles the task, or the one at the deadline or, without a timeout, number max(1, max_polls) |
| `Executors.PollEventIs` | control-plane/executors/socket.py:181-202 | What is reported is the error of a poll, or how the state, else the status, else done settles the task, or the accepted dispatch |
| `Executors.LastPollUnique` | control-plane/executors/socket.py:180-202 | That poll, and so the final event, is determined |
| `Executors.TerminalDispatch` | control-plane/executors/terminal.py:93-149 | The same shape for the terminal executor, which always begins with queued; which final event, by the first call that raises or the agent state |
| `Executors.TracesAreSeparable` | control-plane/app/dependencies.py:757-783 | Runs that follow one another in a stream can be told apart, since only their last events are final |
| `Resume.CollectEvents` | control-plane/app/dependencies.py:744-809 | With rotation off the stream is one run; with it on, runs and markers alternate, every dispatch after a marker runs on the account that marker moved to, every marker is an outcome of the rotation service on its own state, and the reason for stopping is one of the source's four |
| `Resume.AttemptRotation` | control-plane/app/dependencies.py:795-800 | One rotation extends the history, or raises and leaves it without a marker |
| `ResumeGuarantees.DispatchesAreBounded` | control-plane/app/dependencies.py:788-808 | At most 1 + max(1, setting) dispatches and, whatever the setting, at most one more than the rotations left to the task in its window |
| `ResumeGuarantees.MarkersChain` | control-plane/app/dependencies.py:800-805 | Each marker leaves the account of the dispatch before it and names the account of the dispatch after it |
| `ResumeGuarantees.RotatedAccountFits` | control-plane/app/dependencies.py:812-834 | A dispatch moves to another account of the task's tenant and of the vendor that the signal names, leased to its agent; the one left waits until the signal's reset time or, without one, for its window |
| `ResumeGuarantees.FirstSignalIs` | control-plane/app/dependencies.py:780-786 | A dispatch answers to the first of its events in which exhaustion is detected |
| `ResumeGuarantees.ReasonsToEnd` | control-plane/app/dependencies.py:792-807 | A stream ends because the last rotation named no account, no event of the last dispatch shows exhaustion, the resumes are used up, or the rotation raised |
| `ResumeGuarantees.NoReturnBeforeCooldown` | control-plane/app/dependencies.py:788-808 | A task returns to an account it exhausted only once that account's cooldown has passed |
| `ResumeGuarantees.OneFinalEventEach` | control-plane/app/dependencies.py:768-785 | The stream has exactly one final event for each dispatch |
| `Quota.HasRoomIff` | control-plane/scheduler/quota.py:23-36 | A vendor has headroom if and only if the burn keeps both windows within their caps, or there is no burn |
| `Quota.QuotaLedger.constructor` | control-plane/scheduler/quota.py:56-69 | The store's snapshots replace the given ones, all are written back in turn, and a store of snapshots under their own vendors then holds exactly what the ledger holds |
| `Quota.AllPersisted` | control-plane/scheduler/quota.py:68-69 | Writing back snapshots filed under their own vendors stores all of them, in whatever order |
| `Quota.QuotaLedger.SetSnapshot` | control-plane/scheduler/quota.py:71-74 | Memory and store change together |
| `Quota.QuotaLedger.HasHeadroom` | control-plane/scheduler/quota.py:80-82 | The tightest of the two windows decides |
| `Quota.QuotaLedger.Reserve` | control-plane/scheduler/quota.py:84-97 | Both counters of one vendor grow, and the ledger stays durable |
| `Quota.RebuiltIff` | control-plane/scheduler/quota.py:65-69 | A ledger built from the store of another is identical if and only if it brings no vendor of its own |
| `Backoff.DelayDoubles` | control-plane/scheduler/backoff.py:17-22 | The delay without jitter doubles from attempt to attempt until it stays at the maximum |
| `Backoff.DelayWithin` | control-plane/scheduler/backoff.py:23-26 | Jitter only lengthens a delay, by at most its ratio, and never beyond the maximum |
| `Scheduler.QuotaAwareScheduler.Admit` | control-plane/scheduler/scheduler.py:87-119 | Dispatch with a reservation, or exactly one new queue entry and an untouched ledger, with the reason |
| `Scheduler.QuotaAwareScheduler.DispatchWithBackoff` | control-plane/scheduler/scheduler.py:121-156 | The running count is restored on every exit; the first attempt that is no rate limit decides; otherwise the task is queued; the delays are logged |
| `Scheduler.FirstSettledIsFirst` | control-plane/scheduler/scheduler.py:136-147 | The deciding attempt is the first that is no 429 or 503, among the allowed ones |
| `Scheduler.DelaysAre` | control-plane/scheduler/scheduler.py:131-147 | Before attempt i + 1 the delay is that of attempt i, with its own random factor |
| `Scheduler.QuotaAwareScheduler.CompleteOne` | control-plane/scheduler/scheduler.py:158-160 | One slot fewer, never below zero |
| `Scheduler.DecisionsUnique` | control-plane/scheduler/scheduler.py:87-119 | The decisions on a series of offers are determined by the offers and the first ledger |
| `Scheduler.DispatchedOrQueued` | control-plane/scheduler/scheduler.py:87-119 | Every offer of a series is dispatched or queued, exactly once, and the queue is the old one followed by the queued offers in order of arrival |
| `Scheduler.UsageIsConserved` | control-plane/scheduler/quota.py:84-97 | Both counters of a vendor grow by exactly the burn dispatched on it; caps, keys and well-keyedness stay |
| `Scheduler.CapsAreNeverPassed` | control-plane/scheduler/scheduler.py:104-113 | No series of admissions passes a cap a counter started within, and a vendor that started over one burns no more |
| `Scheduler.AllDispatchedIff` | control-plane/scheduler/scheduler.py:97-113 | A whole series is dispatched if and only if fewer than the maximum run at every offer and the offers together stay within every vendor's remaining quota |
| `Scheduler.CeilingKeptIff` | control-plane/scheduler/scheduler.py:97-113 | Such a series keeps within the ceiling if and only if it is no longer than the ceiling: admission occupies no slot |
| `Scheduler.CeilingCanBePassed` | control-plane/scheduler/scheduler.py:97-113 | A concrete series of two admissions under a ceiling of one |
| `Scheduler.EstimateIsChargedIff` | control-plane/scheduler/scheduler.py:96 | A given estimate is what is charged if and only if it is not zero or the task has no other budget |
| `Scheduler.ZeroEstimateIsCharged` | control-plane/scheduler/scheduler.py:96 | A concrete task estimated at nothing that is refused for its whole budget |
| `Scheduler.RebuiltAfterAdmissions` | control-plane/scheduler/quota.py:65-69 | After any admissions, a ledger rebuilt from the store and the original snapshots is identical |
| `TechLead.TechLeadCoordinator.Plan` | control-plane/orchestrator/techlead.py:116-118 | The tasks that the planner's items define for the first max_fanout permitted workers, or the failure without any worker |
| `TechLead.PlanFollowsPlanner` | control-plane/orchestrator/techlead.py:110-181 | There is a plan if and only if a worker is permitted or every item names one; it has one task for each item, each field from the first of the item's entries for it that is there, and an item without a worker goes to one of the first max_fanout permitted by turns, so the fan-out is kept if and only if the planner keeps it |
| `TechLead.SimplePlanIsBounded` | control-plane/orchestrator/techlead.py:73-87 | The fallback planner gives one task to each of the first max_fanout permitted workers, in order |
| `TechLead.FanoutCanBeExceeded` | control-plane/orchestrator/techlead.py:110-128 | A concrete planner that returns more tasks than the fan-out |
| `TechLead.TechLeadCoordinator.Execute` | control-plane/orchestrator/techlead.py:130-168 | Planning, approval, the first exception, or the two lists; in each case the ledger, the queue and the references of the parent seat after exactly the tasks that were reached |
| `TechLead.TechLeadCoordinator.HandOut` | control-plane/orchestrator/techlead.py:145-157 | The loop over an approved plan, task by task |
| `TechLead.SortedArePicked` | control-plane/orchestrator/techlead.py:143-157 | The dispatched and the queued tasks are those at rising positions that share out the plan: none lost, doubled or moved |
| `TechLead.FirstHaltIs` | control-plane/orchestrator/techlead.py:145-157 | A plan is handed out to its end if and only if every task is valid and every admitted one is dispatched; otherwise the first that is not ends it |
| `TechLead.QueuedTasksAreEntered` | control-plane/orchestrator/techlead.py:148-157 | The new entries of the scheduler's queue are the plan's queued tasks, in order, with their vendor, estimate and reason |
| `Seats.Seat.Release` | control-plane/seats/pool.py:54-60 | One reference fewer, never below zero; true exactly when none is left |
| `Seats.Seat.RefreshToken` | control-plane/seats/pool.py:42-52 | A token extends the lease from the time it arrived; no provider or an empty token changes nothing |
| `Seats.SeatPool.RegisterSeat` | control-plane/seats/pool.py:70-78 | The seat joins the end of its queue |
| `Seats.SeatPool.Acquire` | control-plane/seats/pool.py:80-97 | The longest waiting free seat gets a reference, even when its refresh then raises; with none free the queue is made and the caller waits; no other seat changes |
| `Seats.SeatPool.AcquireSubagent` | control-plane/seats/pool.py:99-107 | One more reference, or an error exactly when the parent seat has none |
| `Seats.SeatPool.Release` | control-plane/seats/pool.py:109-116 | The count falls, the seat returns to its queue when none is left, and the KeyError case |
| `Seats.AcquireKeepsInv` | control-plane/seats/pool.py:80-97 | An acquired seat was free and belongs to that tenant and vendor; the pool stays consistent |
| `Seats.ReleaseKeepsInvIff` | control-plane/seats/pool.py:109-116 | Releasing keeps the pool consistent if and only if the seat has a reference |
| `Seats.FreeSeatCanBeReleased` | control-plane/seats/pool.py:109-116 | A concrete seat that is released before use, queued twice and handed to two parents |
| `Seats.RegisterKeepsInvIff` | control-plane/seats/pool.py:70-78 | Registering keeps the pool consistent if and only if the seat is new and free |
| `Seats.ReachableStatesHold` | control-plane/seats/pool.py:70-116 | In every reachable state a seat is in its own queue exactly once if it has no reference, and otherwise in none |
| `Seats.CountsAreConserved` | control-plane/seats/pool.py:80-116 | Over any run a seat's count is its acquires plus its subagent acquires less its releases |
| `Seats.TenuresDoNotOverlap` | control-plane/seats/pool.py:80-116 | Between two acquisitions of a seat every reference was given back, so no two parents share it |
| `Seats.SeatsAreTakenInTurn` | control-plane/seats/pool.py:80-97 | First come, first served: over any run, a seat with p seats before it is handed out by the acquisition after the next p |
| `Seats.FreedSeatWaitsItsTurn` | control-plane/seats/pool.py:70-116 | A seat that is registered or given back for the last time is handed out when all seats free by then have been |
| `Seats.HeldUntilReleased` | control-plane/seats/pool.py:89-97 | A taken seat is in no queue until released - including one whose refresh failed, which no caller holds |
| `Seats.FailedRefreshLosesSeat` | control-plane/seats/pool.py:89-97 | A new pool whose only seat needs a refresh that fails: the caller gets an error, the seat has a reference all the same, and the next caller waits |
| `ApiKeys.APIKeyManager.CreateKey` | agnostic-ai-platform/backend/app/api_keys.py:136-177 | A new active record and its index entry, nothing else |
| `ApiKeys.APIKeyManager.ValidateKey` | agnostic-ai-platform/backend/app/api_keys.py:179-211 | A key is accepted if and only if its record is active, not past its expiry and under its budget, and is then stamped with one use more; an active one past its expiry becomes expired; nothing else changes |
| `ApiKeys.APIKeyManager.RotateKey` | agnostic-ai-platform/backend/app/api_keys.py:215-252 | The old key is retired, and a new one with its scope linked to it |
| `ApiKeys.APIKeyManager.RevokeKey` | agnostic-ai-platform/backend/app/api_keys.py:256-269 | The key is revoked and leaves the index |
| `ApiKeys.APIKeyManager.RecordUsage` | agnostic-ai-platform/backend/app/api_keys.py:273-281 | Only the two totals of one key grow |
| `ApiKeys.ReachableIsValid` | agnostic-ai-platform/backend/app/api_keys.py:114-281 | With fresh ids and hashes every reachable store is consistent |
| `ApiKeys.IndexIsExact` | agnostic-ai-platform/backend/app/api_keys.py:179-198 | The hash index holds exactly the active and expired records |
| `ApiKeys.ValidateIsLinearScan` | agnostic-ai-platform/backend/app/api_keys.py:179-211 | Validation through the index accepts a key if and only if a scan would find it active, unexpired and under budget |
| `ApiKeys.InactiveForever` | agnostic-ai-platform/backend/app/api_keys.py:179-269 | A key that leaves the active status never returns to it |
| `ApiKeys.NeverAcceptedAgain` | agnostic-ai-platform/backend/app/api_keys.py:179-269 | From then on its secret is never accepted, for any record |
| `ApiKeys.ChainsAreAcyclic` | agnostic-ai-platform/backend/app/api_keys.py:215-252 | Rotation links never form a cycle, and the scope is one along a chain |
| `ApiKeys.RevokedKeyCanBeRotated` | agnostic-ai-platform/backend/app/api_keys.py:215-252 | Any known key, a revoked one included, can be rotated; the new key is accepted at a later time if and only if its budget is absent or positive and its days, if any, are not over |
| `CircuitBreaker.Switch.AskOpen` | agnostic-ai-platform/app/llm/router.py:73-81 | A tripped breaker lets one probe through after the timeout, and then stands one failure short of tripping |
| `CircuitBreaker.Switch.RecordFailure` | agnostic-ai-platform/app/llm/router.py:83-86 | One failure more, with its time |
| `CircuitBreaker.Switch.RecordSuccess` | agnostic-ai-platform/app/llm/router.py:88-90 | The count is cleared |
| `CircuitBreaker.CounterIsStreak` | agnostic-ai-platform/app/llm/router.py:62-90 | Over any run the counter is the streak of failed calls cut off at the threshold |
| `CircuitBreaker.TurnedAwayIff` | agnostic-ai-platform/app/llm/router.py:73-81 | A visit is turned away if and only if the last threshold calls failed and the timeout since the latest has not passed |
| `CircuitBreaker.NoCallWhileTripped` | agnostic-ai-platform/app/llm/router.py:73-90 | After a trip the provider is not called before the recovery timeout has passed, and one failed probe starts the next wait |
| `CircuitBreaker.Router.DetermineRoutingChain` | agnostic-ai-platform/app/llm/router.py:108-146 | The three nodes of each named strategy in their order, an unknown name standing for the cheapest, and for round robin the provider whose turn it is; only round robin moves the turn |
| `CircuitBreaker.Router.RouteRequest` | agnostic-ai-platform/app/llm/router.py:148-196 | The answer is that of the first chain node that is not open and succeeds, and the error is raised if and only if every node was open or failed; each breaker sees exactly its visits |
| `CircuitBreaker.Router.VisitNode` | agnostic-ai-platform/app/llm/router.py:162-193 | A node is called unless its provider's breaker is open; that breaker sees the visit, and no other changes |
| `CircuitBreaker.Switch.DoVisit` | agnostic-ai-platform/app/llm/router.py:167-192 | One visit asks the breaker and records the outcome |
| `CircuitBreaker.BreakersAreIndependent` | agnostic-ai-platform/app/llm/router.py:148-196 | Over any requests a breaker reflects only the visits to its own provider |
| `CircuitBreaker.RoutingProtectsProviders` | agnostic-ai-platform/app/llm/router.py:62-196 | Over any routed requests a provider's failures stay within [0, threshold], and after a trip it is not called before the recovery timeout has passed |
| `CircuitBreaker.RoundRobinCycles` | agnostic-ai-platform/app/llm/router.py:117-134 | Round robin reaches every provider within three turns |

## Left out

- Floating point: all quantities are exact reals, so rounding at a boundary is not captured.
- Concurrency inside a call: one call is one atomic step; locks, tasks waiting in an asynchronous queue and interleavings of two routes or two token-bucket checks are not modelled.
- TokenBucket.RateLimitStore.CheckRateLimit: the cost is a natural number, as every caller passes; a negative cost would refill the bucket. The middleware that makes three checks in turn is not part of this model.
- The values of the rate-limit response headers, which only render the same counts.
- RecursiveSplitter.SplitText: `chunk_overlap` is stored but not used by the source, and so not modelled; `SemanticChunker` and `MarkdownChunker` are not modelled.
- LineChunks.ChunkDocuments: loading files and the two checks of size and overlap when a pipeline is built are not modelled; an overlap is a natural number.
- ContextWindow.FitContextWindow: messages are told apart by position, so one message object listed twice counts as two.
- Generation.GenerateCompletion: the reason text of a request that fails validation, which the validation library words, is one constant.
- RagQuery.Query: the tokens of a text are a parameter, and citations, snippets and the composed answer are not modelled.
- AccountPool.AccountRegistry.Register: accounts are values, so a later change of the caller's record through its own reference is not seen. Home directory, plan, credential and metadata fields are not modelled, and `lower()` is that of ASCII.
- Rotation.RotationService.OnExhaustion: logging out and the resume hook have no effect on the modelled state, and an account has one login result within a call, since it is tried at most once.
- Resume.CollectEvents: choosing the executor and recording costs have no effect on the stream; the detector and the reset time it parses are arbitrary functions.
- Executors.SocketDispatch: with a timeout the clock is assumed to reach the deadline at some poll; usage details of a record are not carried.
- Quota.QuotaLedger.constructor: the order in which the dictionary is gone through is a parameter; the text encoding of a snapshot and `forecast` are not modelled.
- Scheduler.QuotaAwareScheduler.DispatchWithBackoff: sleeping has no effect of its own, and a dispatch does not call back into the scheduler.
- TechLead.TechLeadCoordinator.Execute: the planner is a parameter, and a dispatch does not touch the scheduler; the time estimate of a plan is not modelled, and its approval flag is the test with which `Execute` begins.
- Seats.SeatPool.Acquire: an empty queue is reported as waiting; the later hand-over to the waiting caller is not modelled. The environment of a seat is not modelled.
- ApiKeys.APIKeyManager.CreateKey: key generation and hashing are parameters; fresh ids and distinct hashes are assumed over runs. Listing and single-key views are not modelled.
- CircuitBreaker.Router.RouteRequest: the streaming path is not modelled.
- The gateway's response cache and its rotation of upstream keys, which are plain map and counter updates.
- Databases, HTTP and socket clients, authentication, user interface, metrics and cost reporting.
