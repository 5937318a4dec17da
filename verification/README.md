# HiveMind gateway: verified models

A Dafny 4.11 project that models the stateful, arithmetic and text-handling core of the HiveMind
gateway and proves what that core is for. Verify it with `dafny verify dfyconfig.toml`.

| part | files | what it is about |
|---|---|---|
| rate limiting | `TokenBucket`, `LimitService`, `RateLimiter`, `RateLimiterRuns`, `LimiterUpdates` | the token bucket in exact integers (one token is 60 * 10^9 units and a bucket gains `rpm` units a nanosecond), the limiter class with its lazily filled map, every interleaving of its lock sections, and configuration updates in the middle of them |
| model files | `GgufFormat`, `GgufReader`, `GgufTheorems`, `GgufText` | an encoder for the GGUF header and its key/value pairs, the cursor-driven recursive reader, both directions between them, and what is reported in terms of the bytes of the file |
| retrieved context | `TextSearch`, `RagContext` | the two-pattern sanitiser, the block builder, the byte cut, and the injection into a request |
| routing | `Backends`, `Health`, `Fallback`, `ChainWalk`, `LiveReload` | probe results and reloads, fallback chains, the walk along a captured chain, and all of them interleaved |
| fusion | `Whitespace`, `Rendering`, `Transforms`, `Prompts`, `FusionMessages`, `ShippedPrompts`, `FusionRuns` | template rendering and splitting, prompt filling, the parallel fan-out with its quorum, and the streamed answer |
| PII shield | `PiiBreaker`, `PiiPipeline`, `PiiRuns` | the circuit breaker under overlapping scans, and the middleware that scans before it forwards |

`Options` holds the optional value the others share. Code that updates objects in place is modelled
by classes and loops, each proved against a function; the theorems are about those functions and
about runs of the state machines built from them. Clocks, wire outcomes, schedules and what other
services answer are parameters, so every theorem holds for all of them.

## Where the code and its descriptions part

- `fallback.go:13` says backends with priority 0 sort last. They do exactly under the condition of
  `Fallback.UnsetLastExactly`; an explicit priority above 2^31 - 1 sorts behind them
  (`Fallback.UnsetCanSortFirst`).
- `ratelimit.go:79-80` says new limits take effect on the next request. They do exactly when every
  request under way is harmless (`LimiterUpdates.UpdateTakesEffectExactly`). A request between its
  lookup and its insert can put a bucket of the old limits back (`LimiterUpdates.UpdateCanBeOvertaken`),
  and one that already holds a bucket takes from it on top of the new burst, even when the
  configuration has not changed (`LimiterUpdates.HeldBucketIsExtra`). Production reloads build a
  fresh limiter instead (`gateway.go:70`).
- The Retry-After value is one second more than needed exactly in the case of
  `TokenBucket.RetryAfterIsTight`, as in `TokenBucket.SpareSecond`. The response is that of section 4
  of RFC 6585 and the header that of section 10.2.3 of RFC 9110.
- `gguf.go:122-127` formats an 8-bit value before reading it, so its text is always "0"
  (`GgufFormat.EightBitTextIsLost`); the cursor still moves correctly.
- `client.go:27` speaks of a shield unreachable for more than the timeout; the code opens at exactly the
  timeout, measured from one stored failure whether or not the shield was asked since
  (`PiiBreaker.OneFailureThenSilence`), and for this client never closes again unless a scan was in flight
  (`PiiBreaker.RecoverableIffInFlight`). A reload builds a new client (`gateway.go:73-75`).
- `internal/pii/middleware.go:16` lists "allow" as the decision that passes a body; any decision but "block" and
  "redact" does, an empty one included (`PiiRuns.VerdictDecides`, `PiiRuns.EmptyDecisionPasses`).
- A question that contains "[USER]" or a later placeholder is misplaced in the prompts; the exact
  conditions are in `FusionMessages.FallbackMessageExactly` and `Prompts.SynthSlotsExactly`, with such
  questions in `FusionMessages.FallbackCanMisplace` and `ShippedPrompts.QuestionsCanSpoil`.
- The in-process chain walk does not validate responses, so it can take a reply that the request path
  would refuse and pass over (`ChainWalk.WalksAgreeExactly`, `ChainWalk.WalksCanDiffer`).

## Model

| member | source | states |
|---|---|---|
| `TokenBucket.Bucket.constructor` | internal/gateway/ratelimit.go:21-29 | A new bucket holds its full burst at the instant of its creation. |
| `TokenBucket.Bucket.Take` | internal/gateway/ratelimit.go:33-54 | A take moves the stored fill and time exactly as the specification step does (refill, cap, then spend one token or announce a wait). |
| `TokenBucket.SeenClosedForm` | internal/gateway/ratelimit.go:33-48 | The fill a take sees is the least spare capacity over all windows that end at it: a closed form for the step-by-step arithmetic, attained by some window. |
| `TokenBucket.FlagIffRoom` | internal/gateway/ratelimit.go:33-54 | In accrued units, a take succeeds if and only if every window ending at it has room for one more token. |
| `TokenBucket.AdmittedExactly` | internal/gateway/ratelimit.go:33-54 | On a fresh bucket a take is admitted if and only if, for every earlier take as window start, what was admitted since plus one fits burst plus accrual. |
| `TokenBucket.WindowBound` | internal/gateway/ratelimit.go:33-54 | On every trace, conforming or not, the admissions of any stretch of consecutive takes cost at most burst plus accrual. |
| `TokenBucket.NothingDeniedIffConforming` | internal/gateway/ratelimit.go:21-54 | A trace is admitted in full if and only if every stretch i..j has at most burst + rate * (t_j - t_i) requests. |
| `TokenBucket.AdmissionsInTimeWindow` | internal/gateway/ratelimit.go:33-54 | In any interval of time at most burst plus the accrual of the interval is admitted. |
| `TokenBucket.BucketIsOptimal` | internal/gateway/ratelimit.go:33-54 | No policy that respects every window admits more requests of any prefix of the trace than the bucket does. |
| `TokenBucket.RefillTwice` | internal/gateway/ratelimit.go:37-42 | Refilling in two stages equals refilling once. |
| `TokenBucket.FullStaysFull` | internal/gateway/ratelimit.go:21-42 | A bucket left alone since it was full is full now, so its creation time does not matter. |
| `TokenBucket.DeniedRun` | internal/gateway/ratelimit.go:37-53 | A run of denied takes leaves the bucket as a bare refill would. |
| `TokenBucket.NextAdmissionExactly` | internal/gateway/ratelimit.go:44-53 | After a denial with nothing admitted since, the next take succeeds if and only if the missing units have accrued, and never with burst zero. |
| `TokenBucket.DeniedWait` | internal/gateway/ratelimit.go:50-53 | The announced wait is the missing units divided by the rate, truncated. |
| `TokenBucket.DeniedInsideWait` | internal/gateway/ratelimit.go:50-53 | Every take strictly before the denial plus the announced wait is denied. |
| `TokenBucket.RetryAfterSuffices` | internal/gateway/ratelimit.go:138-141 | A take at or after the advertised seconds succeeds if nothing was admitted meanwhile, however many denied takes were made. |
| `TokenBucket.RetryAfterIsTight` | internal/gateway/ratelimit.go:138-141 | One second less is enough if and only if the missing units accrue in exactly that many whole seconds. |
| `TokenBucket.SpareSecond` | internal/gateway/ratelimit.go:138-141 | One request a second: the second request at once is told to wait two seconds where one is enough. |
| `TokenBucket.DeniedTakesAreInert` | internal/gateway/ratelimit.go:33-54 | Removing any set of denied takes changes no other decision and no later fill. |
| `RateLimiter.Limiter.constructor` | internal/gateway/ratelimit.go:66-77 | Zero defaults become 60 per minute and burst 10; the map starts empty. |
| `RateLimiter.Limiter.Update` | internal/gateway/ratelimit.go:81-92 | The new configuration is normalised and every bucket is dropped. |
| `RateLimiter.LimitsAsConfigured` | internal/gateway/ratelimit.go:66-92 | In the configuration's own fields: a listed consumer has exactly its listed limits, any other the default rate and burst, where zero stands for 60 and 10. |
| `RateLimiter.Limiter.Lookup` | internal/gateway/ratelimit.go:94-102 | The read-locked half returns the existing bucket, if any, and the configuration. |
| `RateLimiter.Limiter.Insert` | internal/gateway/ratelimit.go:104-119 | The write-locked half keeps an existing bucket and otherwise adds one full bucket with the limits that the configuration read earlier lists for the consumer, or else its defaults, whatever has happened since, touching no other. |
| `RateLimiter.Limiter.GetBucket` | internal/gateway/ratelimit.go:94-120 | Both halves together: the consumer keeps its bucket, limits and fill included, or gets a full one of its current limits; no other bucket changes. |
| `RateLimiter.Limiter.TakeFrom` | internal/gateway/ratelimit.go:33-54 | A take moves only that consumer's bucket, by one step under the limits it was created with. |
| `RateLimiter.Limiter.Respond` | internal/gateway/ratelimit.go:134-149 | A request is forwarded if and only if it is admitted; a denied one gets 429 with the wait in whole seconds plus one. |
| `RateLimiter.Limiter.Handle` | internal/gateway/ratelimit.go:94-149 | One request moves exactly the consumer's own bucket by one step from its present fill, or from a full bucket of the current limits on first sight, and answers with the step's decision; the limits on first sight are the listed ones, or else the defaults, and a request is forwarded if and only if it is admitted. |
| `RateLimiterRuns.StepKeepsInv` | internal/gateway/ratelimit.go:33-120 | Every lookup, insert and take of any thread keeps each shared bucket equivalent to an eager private one. |
| `RateLimiterRuns.RunKeepsInv` | internal/gateway/ratelimit.go:33-120 | The same over every run without an update. |
| `RateLimiterRuns.LazyMapRefinesEagerBuckets` | internal/gateway/ratelimit.go:33-120 | Under every interleaving of lookups, inserts and takes, a consumer's decisions are those of one bucket of its configured limits that was full from the start. |
| `RateLimiterRuns.ConfiguredLimitsServe` | internal/gateway/ratelimit.go:66-120 | Under every interleaving a consumer listed in the configuration gets the decisions of one bucket of exactly the listed limits, any other those of the default limits, full from the start. |
| `RateLimiterRuns.OwnEntries` | internal/gateway/ratelimit.go:134-149 | The times and decisions of a consumer are those of exactly its own entries in the log, in order. |
| `RateLimiterRuns.ConsumersAreIndependent` | internal/gateway/ratelimit.go:94-120 | Two runs with the same take instants for a consumer give it the same decisions, whatever other consumers do. |
| `RateLimiterRuns.ConsumerGuarantee` | internal/gateway/ratelimit.go:33-120 | Under every interleaving a consumer's admissions in any interval are bounded by its allowance, and it is refused nothing if and only if its own requests conform. |
| `LimitService.AlikeServesSame` | internal/gateway/ratelimit.go:21-54 | Alike limits admit the same takes of every trace on a clock of whole nanoseconds. |
| `LimitService.UnlikeFrom` | internal/gateway/ratelimit.go:21-54 | Limits that are not alike part on some trace, whenever it starts. |
| `LimitService.SameServiceExactly` | internal/gateway/ratelimit.go:21-54 | No trace tells two limits apart if and only if their bursts are equal and the burst is zero, or the rates are equal, or both rates bring all tokens of the burst but one each nanosecond and the surplus makes the last token at the same tick (with burst 1: the same first whole nanosecond). |
| `LimiterUpdates.MapStaysCurrentIffNoneStale` | internal/gateway/ratelimit.go:81-120 | After an update the map only ever names buckets whose stored limits are the current ones if and only if no request stands between its lookup and its insert with limits that the update changed. What is decided is the subject of `UpdateTakesEffectExactly`. |
| `LimiterUpdates.NotStaleStaysEnforced` | internal/gateway/ratelimit.go:81-120 | With no such request pending the map keeps naming only buckets of current limits. |
| `LimiterUpdates.UpdateCanBeOvertaken` | internal/gateway/ratelimit.go:81-120 | A reachable run in which an older request's insert puts a bucket of the old limits into the map after an update. |
| `LimiterUpdates.HarmlessServesAfresh` | internal/gateway/ratelimit.go:33-120 | With only harmless requests under way after an update, every later decision, in every run, is that of one bucket of the new limits that was full at the update. |
| `LimiterUpdates.IdleUpdateTakesEffect` | internal/gateway/ratelimit.go:33-120 | In particular when no request is under way. |
| `LimiterUpdates.HarmfulShows` | internal/gateway/ratelimit.go:33-120 | From every other request some run decides otherwise. |
| `LimiterUpdates.UpdateTakesEffectExactly` | internal/gateway/ratelimit.go:33-120 | In every reachable state, an update takes effect for every consumer in every later run if and only if each request under way either missed under limits that serve alike, or holds a bucket that is dry for a consumer whose new burst is zero. |
| `LimiterUpdates.HeldBucketIsExtra` | internal/gateway/ratelimit.go:33-120 | A request that holds a bucket across an update to the same configuration: two admissions at one instant under a burst of one. |
| `GgufFormat.FromLeOfLe` | internal/models/gguf.go:78-93 | Little-endian decoding undoes encoding at every width. |
| `GgufFormat.LeOfFromLe` | internal/models/gguf.go:78-93 | Little-endian encoding undoes decoding of any bytes. |
| `GgufFormat.DecimalReadsBack` | internal/models/gguf.go:128-160 | The decimal text of an integer determines the integer. |
| `GgufFormat.EightBitTextIsLost` | internal/models/gguf.go:122-127 | An 8-bit value's text is its decimal text if and only if the value is zero: the text is formatted before the byte is read. |
| `GgufFormat.RawFits` | internal/models/gguf.go:120-174 | Every scalar value is recovered from its unsigned raw form, which fits its width. |
| `GgufFormat.OfRawFits` | internal/models/gguf.go:120-174 | Every raw number of a scalar type is the raw form of a well-formed value of that type. |
| `GgufReader.Cursor.ReadFull` | internal/models/gguf.go:95-108 | Reads exactly n bytes and advances by them, or fails with nothing left. |
| `GgufReader.Cursor.ReadUint` | internal/models/gguf.go:78-93 | Reads one little-endian number and advances by its width. |
| `GgufReader.Cursor.GgufReadString` | internal/models/gguf.go:95-108 | The shared cursor moves exactly as the string grammar says; lengths over 1 MiB are errors. |
| `GgufReader.Cursor.GgufReadValue` | internal/models/gguf.go:112-118 | Reads a type tag and then a value of that type, moving the cursor as the grammar says. |
| `GgufReader.Cursor.GgufReadValueByType` | internal/models/gguf.go:120-174 | Per type tag, returns the grammar's text and leaves the cursor right behind the value; unknown tags are errors. |
| `GgufReader.Cursor.GgufSkipArray` | internal/models/gguf.go:176-191 | Skips an array, nested arrays included, and returns the empty text; termination is proved by the bytes left. |
| `GgufReader.Cursor.SkipElements` | internal/models/gguf.go:184-190 | Skips `count` elements or fails at the first bad one. |
| `GgufReader.ReadPairs` | internal/models/gguf.go:55-68 | Stores pairs until the announced count or the first bad one; empty texts are not stored and a later pair overwrites. |
| `GgufReader.ReadGGUFHeader` | internal/models/gguf.go:23-76 | The whole file reader equals the functional grammar: magic, version, counts, then the pairs. |
| `GgufTheorems.ReadOfEncode` | internal/models/gguf.go:120-174 | Reading enc(v) ++ rest shows v's text and leaves the cursor exactly at rest, through arbitrarily nested arrays. |
| `GgufTheorems.SkipOfEncode` | internal/models/gguf.go:176-191 | Skipping an encoded element list stops exactly behind it. |
| `GgufTheorems.ValueOfRead` | internal/models/gguf.go:120-174 | Conversely, whatever the reader accepts is the encoding of some well-formed value, with that value's text. |
| `GgufTheorems.ValuesOfSkip` | internal/models/gguf.go:176-191 | Whatever the skipper accepts is the encoding of that many well-formed elements. |
| `GgufTheorems.CutValueFails` | internal/models/gguf.go:95-191 | A proper prefix of an encoded value is never accepted. |
| `GgufTheorems.CollectCutPair` | internal/models/gguf.go:55-68 | A cut pair ends the reading and leaves the stored metadata untouched. |
| `GgufTheorems.CollectCut` | internal/models/gguf.go:55-68 | Pairs cut after any number of bytes yield exactly the whole ones. |
| `GgufTheorems.WholeIsLongest` | internal/models/gguf.go:55-68 | The whole pairs are the longest prefix of the pairs that fits the cut. |
| `GgufTheorems.FileRoundTrip` | internal/models/gguf.go:23-76 | A file of any well-formed pairs, with any bytes behind, reads back as the map its pairs store. |
| `GgufTheorems.CutFileKeepsWholePairs` | internal/models/gguf.go:23-76 | A file cut anywhere behind its 24-byte header parses without error to exactly the metadata of the whole pairs inside the cut. |
| `GgufTheorems.CutHeaderFails` | internal/models/gguf.go:24-54 | A file cut inside its header is an error. |
| `GgufTheorems.PairsOfCollect` | internal/models/gguf.go:55-68 | From arbitrary bytes the pair loop stores what a maximal run of well-formed pairs stores. |
| `GgufTheorems.AnyAcceptedFile` | internal/models/gguf.go:23-76 | Any accepted file at all is a well-formed header, a run of well-formed pairs and a rest; fewer pairs than announced only where no further pair can be read. |
| `GgufTheorems.LastShownWins` | internal/models/gguf.go:56-68 | A key is reported if and only if some pair of it shows a non-empty text, and then with the last such text; arrays and empty strings leave no trace. |
| `GgufText.FromLePositions` | internal/models/gguf.go:78-93 | Every further byte of a little-endian number weighs 256 times as much. |
| `GgufText.ReadDigitsPositions` | internal/models/gguf.go:128-160 | A printed number is read back place by place: one more digit multiplies what stands before it by ten. |
| `GgufText.DecimalIsCanonical` | internal/models/gguf.go:128-160 | Printed integers are in decimal notation, with a minus sign if negative and no leading zero, and read back as the integer. |
| `GgufText.ReadShowsBytes` | internal/models/gguf.go:120-174 | For all bytes and each type number from 0 to 12, an accepted read reports exactly what the bytes it used mean: the unsigned or two's complement number in decimal, "true" exactly for a non-zero byte, the string itself, nothing for an array, "0" for the 8-bit types; fixed-size types and strings within 1 MiB are read exactly when their bytes are there; no other number is a type. |
| `GgufText.ArrayBytes` | internal/models/gguf.go:176-191 | An array is its element type, its count and that many elements, in this order. |
| `GgufText.HeaderBytes` | internal/models/gguf.go:24-54 | A file is accepted if and only if its 24 header bytes are there, begin with "GGUF" and name version 2 or 3; the two counts are the numbers behind. |
| `GgufText.FileShowsBytes` | internal/models/gguf.go:23-76 | Every reported entry stands in the file: at some offset behind the header there is a pair of that key, and the reported text is what the bytes of its value mean. |
| `RagContext.SanitizedIsClean` | internal/rag/middleware.go:187-190 | No sanitised text contains either delimiter, even one formed by what was cut out. |
| `RagContext.SanitizeUnchangedIffClean` | internal/rag/middleware.go:187-190 | Sanitising changes a text if and only if it contains a delimiter. |
| `RagContext.SanitizeAround` | internal/rag/middleware.go:187-190 | A delimiter, wherever it stands, becomes "[blocked]", and the texts on either side are sanitised by themselves. |
| `RagContext.ExtractText` | internal/rag/middleware.go:212-221 | The first non-empty text among the payload's known fields, in order. |
| `RagContext.FirstTextWins` | internal/rag/middleware.go:212-221 | The text is the first non-empty string under content, text, body, chunk, page_content, in this order, else empty. |
| `RagContext.FormatEntry` | internal/rag/middleware.go:199-206 | One numbered entry with sanitised source and text. |
| `RagContext.BuildContextBlock` | internal/rag/middleware.go:195-208 | The loop over the results builds the block of the specification. |
| `RagContext.EmptyBlock` | internal/rag/middleware.go:195-208 | Without results the block is its opening lines and its closing delimiter. |
| `RagContext.BlockGrows` | internal/rag/middleware.go:195-208 | One more result adds its number, score and sanitised text in front of the closing delimiter, or nothing if it has no text: with the empty block this fixes every block. |
| `RagContext.CappedAt8192` | internal/rag/middleware.go:114-118 | A block of up to 8192 bytes is injected as it is, a longer one cut there and closed again. |
| `RagContext.BlockHasOneOfEach` | internal/rag/middleware.go:187-208 | For all results the block opens exactly once, at offset 0, and closes exactly once, at its end. |
| `RagContext.CappedHasOneOfEach` | internal/rag/middleware.go:114-118 | Cutting an over-long block anywhere, even inside the closing tag, and appending the fixed ending keeps one of each. |
| `RagContext.InjectedBlockIsDelimitedOnce` | internal/rag/middleware.go:114-118 | For all results the injected block has one opening tag at 0 and one closing tag behind it, and its length is at most the cap plus the fixed ending. |
| `RagContext.LastUserMessage` | internal/rag/middleware.go:177-184 | The content of the last message whose role is user. |
| `RagContext.LastUserIsLast` | internal/rag/middleware.go:177-184 | The text searched for is that of the last user message, and empty if there is none. |
| `RagContext.PrependSystemContext` | internal/rag/middleware.go:224-233 | A leading system message is extended in place; otherwise a fresh list is returned and the old one is unchanged. |
| `RagContext.ContextAdded` | internal/rag/middleware.go:224-233 | The old system message is kept whole behind the context and every other message stays; without one the old list follows a new system message. |
| `RagContext.InjectContext` | internal/rag/middleware.go:78-126 | The body is rewritten exactly when enabled, parsed, a user text exists and the search found something; in every other case it is returned unchanged. A system message already there is kept whole behind the block and two newlines, every other message stays as it was, and without one the block comes first and the old list follows. |
| `RagContext.LastUserSurvives` | internal/rag/middleware.go:224-233 | Injection never changes the last user message. |
| `RagContext.SystemMessageDelimitedIffOldOneClean` | internal/rag/middleware.go:224-233 | The system message of the rewritten list keeps one delimiter of each kind if and only if the one already there, which is not sanitised, had none, or there was none. |
| `Health.HealthChecker.constructor` | internal/gateway/health.go:77-99 | Every configured backend starts unknown; a zero threshold becomes 3. |
| `Health.HealthChecker.UpdateConfig` | internal/gateway/health.go:105-121 | Entries of backends that stay are kept, new ones start unknown, others are removed. |
| `Health.HealthChecker.AddMissing` | internal/gateway/health.go:109-115 | The first loop adds exactly the missing entries and returns the configured names. |
| `Health.HealthChecker.Prune` | internal/gateway/health.go:116-120 | The second loop removes exactly the names not seen. |
| `Health.HealthChecker.Land` | internal/gateway/health.go:162-191 | A landing probe updates its own entry, or nothing if a reload has removed it. |
| `Health.HealthChecker.IsHealthy` | internal/gateway/health.go:196-204 | False exactly for backends without an entry or confirmed unhealthy. |
| `Health.HealthChecker.Report` | internal/gateway/health.go:207-226 | Every configured backend has an entry when the report looks it up; degraded if and only if one not expected down is unhealthy. |
| `Health.EntriesAreVerdicts` | internal/gateway/health.go:105-191 | In every reachable state, over any order of probes and reloads, entries exist exactly for configured names, and an entry is the verdict on the outcomes since the backend was last added: trailing failures counted, unhealthy at the threshold, else healthy after a success, else unknown. |
| `Health.VerdictStep` | internal/gateway/health.go:169-191 | The verdict on a longer history is one in-place entry update of the verdict on the shorter. |
| `Health.TrailingFailuresAre` | internal/gateway/health.go:169-191 | The failure count is the number of outcomes behind the last success. |
| `Fallback.BuildFallbackChain` | internal/gateway/fallback.go:14-34 | Every model has a chain, and each chain is the ordered one of its model's backends. |
| `Fallback.GroupByModel` | internal/gateway/fallback.go:15-19 | The loop groups the backends by model in configuration order. |
| `Fallback.StableSortOrders` | internal/gateway/fallback.go:20-32 | Sorting a group orders it by effective priority with ties in configuration order and keeps its members. |
| `Fallback.ChainIsUnique` | internal/gateway/fallback.go:14-34 | There is exactly one such ordered chain of a model. |
| `Fallback.EachBackendOccursOnce` | internal/gateway/fallback.go:14-34 | Each configured backend occurs exactly once, in the chain of its own model only. |
| `Fallback.LowerNumberFirst` | internal/gateway/fallback.go:20-32 | Of two backends with explicit priorities the lower number comes first, with equal ones the one listed first, and unset ones keep their order. |
| `Fallback.UnsetLastExactly` | internal/gateway/fallback.go:12-34 | Backends with priority 0 sort last if and only if no explicit priority of the model exceeds 2^31 - 1, or equals it later in the list. |
| `Fallback.UnsetCanSortFirst` | internal/gateway/fallback.go:12-34 | Two backends whose unset priority sorts in front of an explicit 2^31. |
| `ChainWalk.ForwardAttempt` | internal/gateway/proxy.go:210-274 | One call sends what the request body holds at that moment, and writes to the client only if it is not a transport error. |
| `ChainWalk.ForwardChain` | internal/gateway/proxy.go:159-204 | Exactly one response is written, and the calls made are those to the healthy backends up to the serving one. |
| `ChainWalk.ClientSeesFirstServing` | internal/gateway/proxy.go:159-204 | The response is from the first backend healthy when visited and not failing in transport, flagged as a fallback if and only if it is not the head; 503 if and only if there is none. |
| `ChainWalk.CallsCarryWholeBody` | internal/gateway/proxy.go:176-178 | Every attempt carries the whole body and its length, and exactly the healthy backends visited are called. |
| `ChainWalk.CallsInChainOrder` | internal/gateway/proxy.go:167-200 | There is one call for each healthy position visited, in chain order. |
| `ChainWalk.PassedOverExactly` | internal/gateway/proxy.go:159-274 | A backend is passed over if and only if it is unhealthy, unreachable, or validation is on and its JSON reply cannot be read or lacks the required fields. |
| `ChainWalk.BackendCaller` | internal/gateway/proxy.go:317-407 | The in-process walk answers from the first healthy reachable backend, with its two error returns. |
| `ChainWalk.WalksAgreeExactly` | internal/gateway/proxy.go:159-407 | Both walks stop at the same backend if and only if response validation does not refuse the reply the in-process walk takes. |
| `ChainWalk.WalksAgree` | internal/gateway/proxy.go:159-407 | With validation off both walks always stop at the same backend. |
| `ChainWalk.WalksCanDiffer` | internal/gateway/proxy.go:159-407 | A malformed JSON reply is refused on the request path and taken in process. |
| `LiveReload.Gateway.constructor` | internal/gateway/gateway.go:41-84 | Health entries and the live chains start from the same configuration. |
| `LiveReload.Gateway.BuildProxyHandler` | internal/gateway/gateway.go:58-84 | The handler built from a configuration holds that configuration's chains and becomes the current proxy. |
| `LiveReload.Gateway.Reload` | internal/gateway/gateway.go:106-119 | A reload leaves configuration, health entries and live chains in agreement. |
| `LiveReload.Gateway.LiveBackendsHaveEntries` | internal/gateway/proxy.go:167-172 | Between reloads a live backend is passed over if and only if it is confirmed unhealthy, never for want of an entry. |
| `LiveReload.StepKeepsInv` | internal/gateway/gateway.go:106-146 | Every probe, reload half, request start and chain visit keeps the invariant. |
| `LiveReload.RunKeepsInv` | internal/gateway/gateway.go:106-146 | The same over every run. |
| `LiveReload.CallsOnlyCurrentHealthyBackends` | internal/gateway/proxy.go:167-172 | Over every interleaving with serialised reloads, a request on any captured chain calls a backend if and only if it is in the configuration current at its check and its trailing failures are below the threshold. |
| `LiveReload.WalkEndsAtFirstServing` | internal/gateway/proxy.go:159-204 | In every run, while health and configuration change between its checks, a walk makes its checks in chain order and ends where the chain walked alone ends on what those checks saw: the first position that serves, or 503. |
| `LiveReload.WalksCapturedChain` | internal/gateway/proxy.go:159-204 | In every run, whatever is reloaded meanwhile, a walk walks exactly the chain its request captured: a chain of the configuration live when the request started. |
| `LiveReload.LiveBackendsCovered` | internal/gateway/gateway.go:106-112 | After a reload every live backend has an entry; during one, those without are exactly those the new configuration drops. |
| `Whitespace.TrimSpacePadded` | internal/fusion/transforms.go:140-143 | Surrounding newlines make no difference to trimming. |
| `Whitespace.FieldsOfSpaced` | internal/fusion/fusion.go:199-201 | Splitting at whitespace gives back exactly the words that were spaced out. |
| `Whitespace.FieldsOfOneWord` | internal/fusion/fusion.go:199-201 | A text that is one word splits into that word. |
| `Whitespace.FieldsAroundSpace` | internal/fusion/fusion.go:199-201 | On either side of any white space a text splits by itself: with single words and the empty text this fixes splitting. |
| `Whitespace.SpacedShowsAll` | internal/fusion/fusion.go:199-201 | No visible character is lost or moved by splitting and spacing out again. |
| `Whitespace.TrimSpaceExactly` | internal/fusion/transforms.go:140-143 | Trimming takes exactly the white space off both ends. |
| `Rendering.RenderAround` | internal/fusion/transforms.go:125-134 | render(a ++ "{k}" ++ b) = render(a) ++ value(k) ++ render(b) for all a, b and word k: one pass, values never rendered again. |
| `Rendering.RenderPlain` | internal/fusion/transforms.go:125-134 | A text without an opening brace is left as it is. |
| `Rendering.RenderFills` | internal/fusion/transforms.go:125-134 | A template of literals and keys renders to the literals and values, all at once. |
| `Rendering.UserPartExactly` | internal/fusion/transforms.go:137-144 | The user part is the trimmed input if and only if the rendered text in front of the marker does not contain the marker. |
| `Rendering.MarkerOnlyInValues` | internal/fusion/transforms.go:137-144 | A filled template contains the marker in front of the input if and only if some filled-in value contains it. |
| `Transforms.CoerceStr` | internal/fusion/transforms.go:95-114 | Strings, lists of strings and everything else become text as specified, with the fallback for empty ones. |
| `Transforms.TransformForModel` | internal/fusion/transforms.go:58-93 | The messages are the family's template rendered with the coerced fields of the specification and split at the marker. |
| `Transforms.LowerCase` | internal/fusion/transforms.go:33 | Names are compared in small letters: each of A to Z becomes its small form and no other character changes. |
| `Transforms.FamilyExactly` | internal/fusion/transforms.go:32-48 | Each family exactly by the names a model mentions in any letter case: the qwen names before the claude names before gpt before glm, and claude for anything else. |
| `Transforms.CoercedAs` | internal/fusion/transforms.go:95-114 | Missing, null and empty fields give the fallback, a string itself, a list one dashed line per item, anything else its printed form. |
| `Transforms.JoinGrows` | internal/fusion/fusion.go:414 | Joining puts the separator between the parts, in order. |
| `Transforms.RenderTemplate` | internal/fusion/transforms.go:125-134 | Each of the four shipped templates renders to its filled head, the marker line and the input. |
| `Transforms.UserMessageExactly` | internal/fusion/transforms.go:65-77 | For all four shipped templates the user message is the trimmed input if and only if no value filled in before it contains "[USER]". |
| `Transforms.MessagesAre` | internal/fusion/transforms.go:58-93 | For every specification and all four families: the user message is the trimmed input if and only if no text in front of it contains "[USER]", and the system message then says each field under its own label of the shipped template. |
| `Prompts.FilterValid` | internal/fusion/fusion.go:391-399 | Keeps exactly the replies with no error and some content, in order. |
| `Prompts.ValidGrows` | internal/fusion/fusion.go:391-399 | One more reply is kept if and only if it has no error and some content. |
| `Prompts.FormatResponses` | internal/fusion/fusion.go:401-415 | Joins the panel's answers, over-long ones cut and marked, failed ones named. |
| `Prompts.FormattedGrows` | internal/fusion/fusion.go:401-415 | One more reply follows behind a rule under its model's name: its first 12000 characters with a mark if there are more, or a notice of its error. |
| `Prompts.FormattedStarts` | internal/fusion/fusion.go:401-415 | The formatted answers are empty exactly for an empty panel, and else start with '#', never with a brace. |
| `Prompts.JudgeSlotsExactly` | internal/fusion/fusion.go:301-305 | The two nested first-occurrence replaces put question and answers each in their own slot if and only if the question does not contain "{responses}". |
| `Prompts.StolenSlotShows` | internal/fusion/fusion.go:352-358 | A question that contains "{responses}" spoils the synthesiser's prompt whatever the last replace does. |
| `Prompts.SynthSlotsExactly` | internal/fusion/fusion.go:352-358 | The three nested replaces equal simultaneous substitution if and only if no text inserted earlier contains a placeholder filled later. |
| `FusionMessages.FixedSpecMessage` | internal/fusion/transforms.go:58-93 | With marker-free fixed parts the user message is the trimmed input, for every family. |
| `FusionMessages.SpecsSay` | internal/fusion/fusion.go:307-312 | Judge and synthesiser are given their own role, task and answer format, and the filled prompt as input. |
| `FusionMessages.FallbackSays` | internal/fusion/fusion.go:249-259 | The fallback specification has the raw question as task and input, and defaults for the rest. |
| `FusionMessages.JudgeMessage` | internal/fusion/fusion.go:300-318 | The judge is sent the question and the panel's answers, each in its own place, for every model family. |
| `FusionMessages.SynthMessage` | internal/fusion/fusion.go:343-371 | The synthesiser is sent question, answers and analysis, each in its own place, for every model family. |
| `FusionMessages.FallbackMessageExactly` | internal/fusion/fusion.go:249-259 | A panelist asked through the fallback specification is sent exactly the trimmed question if and only if not both its template has a task slot and the question contains "[USER]". |
| `FusionMessages.FallbackCanMisplace` | internal/fusion/fusion.go:249-259 | A concrete question that a Claude panelist is not sent as asked. |
| `ShippedPrompts.JudgeIsAsked` | internal/fusion/fusion.go:300-318 | With the shipped judge prompt and any panel, question and answers are each in their own slot if and only if the question does not contain "{responses}", and the judge is then sent just that. |
| `ShippedPrompts.SynthesiserIsAsked` | internal/fusion/fusion.go:343-371 | With the shipped synthesiser prompt, question, answers and analysis are each in their own slot if and only if no text inserted earlier contains a placeholder filled later, and the synthesiser is then sent just that. |
| `ShippedPrompts.QuestionsCanSpoil` | internal/fusion/fusion.go:301-358 | The question "{responses}" spoils the shipped judge prompt and "{analysis}" the shipped synthesiser prompt. |
| `FusionRuns.ResolvePanel` | internal/fusion/panels.go:21-42 | Defaults: deliberator, timeout, and a quorum of two or of the panel size if that is smaller; explicit values are kept. |
| `FusionRuns.FanOutIsScheduleIndependent` | internal/fusion/fusion.go:262-297 | Under every interleaving, once the wait group drains results[i] is panelist i's outcome, content and error, under its own name, and until then some goroutine can move. |
| `FusionRuns.ValidCounts` | internal/fusion/fusion.go:391-399 | The number of valid results is the number of usable replies. |
| `FusionRuns.UsableGrows` | internal/fusion/fusion.go:391-399 | A call counts if and only if it replied without an error and with some content. |
| `FusionRuns.QuorumVerdict` | internal/fusion/fusion.go:112-118 | The quorum verdict is whether at least the required number of calls were usable, and does not depend on the schedule; a default quorum lies between 1 and the panel size, so a fully answering panel meets it. |
| `FusionRuns.StreamAnswer` | internal/fusion/fusion.go:162-207 | The producer sends one delta per word, or the quorum notice, then one stop. |
| `FusionRuns.ChannelDelivers` | internal/gateway/proxy.go:455-486 | Through the 64-slot channel under every interleaving the consumer has received a prefix of the sends, neither side ever blocks the other for good, every run is finite, and a finished consumer has received the sends exactly. |
| `FusionRuns.RelayStream` | internal/gateway/proxy.go:462-487 | One event per chunk in order, then the end mark. |
| `FusionRuns.StreamAgreesWithPlainAnswer` | internal/fusion/fusion.go:162-207 | A finished stream is deltas, one stop, the end mark, and its assembled text has exactly the words and visible characters of the plain answer, in order; on a missed quorum it is the notice with the right numbers. |
| `PiiBreaker.Client.constructor` | internal/pii/client.go:39-48 | A new client has a 30 second circuit timeout and no stored failure. |
| `PiiBreaker.Client.IsOpen` | internal/pii/client.go:89-96 | Open if and only if a failure is stored and at least the timeout old. |
| `PiiBreaker.Client.RecordFailure` | internal/pii/client.go:98-104 | Stores the time only if none is stored. |
| `PiiBreaker.Client.RecordSuccess` | internal/pii/client.go:106-110 | Clears the stored time. |
| `PiiBreaker.Client.Scan` | internal/pii/client.go:52-86 | The shield is called if and only if the circuit is closed; each outcome's result and effect on the stored time, with an undecodable reply counting as a success. |
| `PiiBreaker.StoredFailureExactly` | internal/pii/client.go:52-111 | After every run of overlapping scans the stored time is that of the first failure landed after the last landed success, and none if there is no such failure. |
| `PiiBreaker.FirstSinceSuccessIsUnique` | internal/pii/client.go:98-110 | At most one landed failure of a run is the first since the last success. |
| `PiiBreaker.OpenExactly` | internal/pii/client.go:89-96 | After every run the circuit is open at an instant if and only if that failure is at least 30 seconds old. |
| `PiiBreaker.OpenUntilSuccess` | internal/pii/client.go:52-111 | While no success lands, an open circuit stays open, keeps its time and lets no call through. |
| `PiiBreaker.NoHalfOpen` | internal/pii/client.go:52-96 | An open circuit with no scan in flight stays open in every later run and never calls the shield again. |
| `PiiBreaker.RecoverableIffInFlight` | internal/pii/client.go:52-111 | An open circuit can ever call the shield again if and only if some scan is still in flight. |
| `PiiBreaker.OneFailureThenSilence` | internal/pii/client.go:52-111 | One failed call followed by a silence of the timeout's length opens the circuit of this client for good, with the shield asked only once. |
| `PiiPipeline.BodyRecorder.WriteHeader` | internal/pii/middleware.go:102-104 | The last status written is the one kept. |
| `PiiPipeline.BodyRecorder.Write` | internal/pii/middleware.go:106-108 | Bytes are appended to the buffer. |
| `PiiPipeline.Record` | internal/pii/middleware.go:65-73 | After the wrapped handler the recorder holds its last status and all its bytes, in order. |
| `PiiPipeline.LastStatusWins` | internal/pii/middleware.go:102-104 | The status kept is the last one set, 200 if none is. |
| `PiiPipeline.BytesInOrder` | internal/pii/middleware.go:106-108 | Everything written is kept, in order. |
| `PiiPipeline.Filter` | internal/pii/middleware.go:36-52 | One scan of a body: refused with 503 or 403, replaced by the sanitised text on redact, otherwise passed unchanged; empty bodies are not scanned. |
| `PiiPipeline.Middleware` | internal/pii/middleware.go:19-88 | The handler, run alone, hands on, answers, asks the shield and moves the breaker exactly as the request and response phases of the state machine do. |
| `PiiPipeline.InputPhaseFilters` | internal/pii/middleware.go:26-62 | The request phase of a non-broken body is one scan in direction "input". |
| `PiiPipeline.OutputPhaseFilters` | internal/pii/middleware.go:64-88 | The response phase is one scan of the recorded body in direction "output". |
| `PiiRuns.StepKeepsInv` | internal/pii/middleware.go:19-88 | Every arrival, landing answer and finishing handler of any request keeps the invariant, with all requests sharing one breaker. |
| `PiiRuns.RunKeepsInv` | internal/pii/middleware.go:19-88 | The same over every run. |
| `PiiRuns.UnscannedOnlyExcused` | internal/pii/middleware.go:26-87 | Over every run, for both bypass settings: a non-empty body that reached the next handler or the client has been scanned, or bypass is on, it is unchanged, and its scan met an open circuit or an unreachable shield. |
| `PiiRuns.ScanBeforeForward` | internal/pii/middleware.go:26-87 | With bypass off, over every run and whatever the circuit did, a non-empty body that reached the next handler or the client is the original or sanitised text of a completed scan of exactly that body, by that agent, in that direction. |
| `PiiRuns.ForbiddenIffBlocked` | internal/pii/middleware.go:41-83 | The middleware refuses a request with 403 if and only if a scan of it came back "block". |
| `PiiRuns.LandedDecides` | internal/pii/client.go:71-85 | In every run an answer that does not decode ends the request with 503 whatever the bypass setting and delivers nothing; an unreachable shield does so without bypass, and with it exactly the scanned body is delivered. |
| `PiiRuns.ArrivalDecides` | internal/pii/middleware.go:21-62 | In every run: no body is handed on as none, a broken one is answered 400, an empty one passes unscanned; on an open circuit a body passes unchanged under bypass and is else answered 503; on a closed one the shield is asked about exactly that body for the consumer in the header. |
| `PiiRuns.FinishDecides` | internal/pii/middleware.go:64-88 | The same for what the handler produced, with the handler's status. |
| `PiiRuns.VerdictDecides` | internal/pii/middleware.go:36-83 | Every completed scan decides its body, in both directions and both ways round: "block" stops it with 403, and a text is delivered if and only if the decision is not "block" and the text is the sanitised one for "redact" and exactly the scanned one for any other decision. |
| `PiiRuns.EmptyDecisionPasses` | internal/pii/middleware.go:41-52 | A verdict without a decision lets the body through unchanged. |
| `PiiRuns.PhaseIsMoves` | internal/pii/middleware.go:19-88 | A phase run alone is one move of the machine, followed by the shield's answer if it was asked. |
| `PiiRuns.BreakerRuns` | internal/pii/client.go:52-111 | Every run of requests drives the breaker through a run of overlapping scans, so the breaker's theorems hold inside it. |
| `PiiRuns.NoMoreScans` | internal/pii/client.go:52-96 | Once the circuit is open with nothing in flight the shield is never called and no scan completes again. |
| `PiiRuns.OpenCircuitStopsBodies` | internal/pii/middleware.go:26-87 | From then on, with bypass off, no non-empty body reaches the next handler or the client in any later run. |
| `PiiRuns.OpenCircuitBypassesBodies` | internal/pii/middleware.go:26-87 | From then on, with bypass on, every later request is handed on exactly as it came and answered exactly as the handler answered it, unless its body broke, and the shield is never asked; the answers of requests already with the handler pass unchanged too. |

## Left out

- TokenBucket.Bucket.Take: does not model the rounding of 64-bit floats; requests per minute and burst are naturals, and a rate of zero has no finite wait.
- TokenBucket.RetryAfterSuffices: asks for a rate and a burst of at least one, because with a zero rate there is no wait to announce and with a zero burst the code never admits anything.
- RateLimiter.Limiter.Respond: says nothing of the header's value at a rate of zero, where the code converts an infinite wait to an integer.
- RateLimiterRuns.LazyMapRefinesEagerBuckets: is about runs without `Update`; runs with it are the subject of `LimiterUpdates`.
- GgufReader.Cursor.GgufReadValueByType: leaves the text of floating-point values to a parameter, and says of the cursor after a failure only what the callers need.
- GgufReader.ReadGGUFHeader: works on the bytes of the file; opening, buffering and closing it are not modelled.
- RagContext.InjectContext: the embedding, the search and the JSON decoding are given by their outcomes; strings are bytes, and what JSON re-encoding does to a character cut in half is not modelled.
- RagContext.FormatEntry: takes the score as text that contains no '<'; number formatting is not modelled.
- Fallback.BuildFallbackChain: models Go's stable sort as a stable insertion; the chains hold positions in the configuration instead of pointers.
- ChainWalk.ForwardAttempt: reverse proxying, header rewriting, path rewriting and response parsing are given by what comes over the wire.
- LiveReload.CallsOnlyCurrentHealthyBackends: takes the health check and the call that follows it as one step, and reloads one at a time, since `Reload` does not lock its whole sequence.
- Health.HealthChecker.Land: the probe itself, its timing and its metrics are a parameter.
- Transforms.LowerCase: only the letters A to Z are lowered, where the code also lowers those of other alphabets.
- Rendering.RenderAround: regular expressions, first-occurrence replacement and field splitting are modelled by their behaviour; word characters are ASCII, and white space is Unicode's White_Space property.
- Transforms.TransformForModel: sampling and effort parameters are not modelled.
- Prompts.FormatResponses: cuts long answers by characters, where the code cuts bytes.
- Prompts.JudgeSlotsExactly: is stated for any brace-free opening, any title and any tail; `ShippedPrompts` fixes the shipped opening and titles, and leaves what follows the last slot open.
- Prompts.SynthSlotsExactly: takes the analysis as an indented JSON object or the fixed notice, the two texts the code makes.
- FusionRuns.StreamAnswer: the deliberator, the judge and the synthesiser are given by the text they produce; timeouts, cancellation and unknown tiers are not modelled.
- PiiBreaker.Client.Scan: runs with no other scan in between; overlapping scans are the runs of `PiiBreaker` and `PiiRuns`. JSON encoding, which replaces bytes that are not UTF-8, is not modelled.
- PiiPipeline.Middleware: a handler is the sequence of its writes; headers other than the status, and handlers that panic, are not modelled.
- Authentication, consumer identity, compression, metrics, the router, configuration loading and logging: field checks, lookups and counters with no hard property.
- The VRAM figures, the model scanner, process launching and lifecycle, document ingestion and the vector-store client: operating-system and network work around one-line arithmetic.
- What models answer, and how good it is.
