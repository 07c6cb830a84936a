# Verified model of the orchestration core

The repository runs language models on a fleet of machines: a gateway takes requests, a tether
tells the daemons on the nodes what to run, and an infoserver hands out the model catalog. This
project models the self-contained algorithms and protocols inside it in Dafny and proves what they
promise. `dafny verify dfyconfig.toml` checks everything.

How the code is carried over:

- A closure whose variables change becomes a class with those variables as fields. Each of its
  methods is one atomic step (the code between two `await`s, or a timer callback) and is proved
  equal to a function on the state. The promises are proved about that function, over every
  interleaving of steps: `IsRun` says that a list of events can happen, `After` what it leaves.
- A loop over arrays or maps stays a method with invariants, proved against a specification that
  does not mention the loop.
- Code made of expressions becomes functions, and what they promise becomes lemmas.
- Databases, the network, clocks and random numbers are parameters or freely chosen events:
  whatever they answer, the statement holds. Times and sizes are exact numbers.

The modules:

- `EventStream`, `SseKeepalive`: how a client reads an event stream (WHATWG HTML Living Standard,
  sections 9.2.5 and 9.2.6, on bytes, with the byte order mark), and the wrapper that puts
  keepalive frames into a live stream.
- `TetherStream`, `TetherWire`, `EventReader`: the two decoders that read events back from arbitrary chunks, and what
  a client of the standard reads.
- `JsonValues`, `CanonicalJson`, `JsonReader`, `CanonicalJsonLaws`: canonical printing of JSON on UTF-16 code units,
  and an independent reader by the grammar of RFC 8259 that it is proved against.
- `ShellQuote`: quoting an argument list, undone by the word splitting of POSIX (XCU sections
  2.2.1 Escape Character, 2.2.2 Single-Quotes and 2.3 Token Recognition).
- `RateLimiter`, `Semaphore`, `MemoryCache`, `RoutingCache`, `LoadBalancer`, `Admission`,
  `ModelLookup`, `RequestParams`, `NonceWindow`: the request path.
- `StatusWriter`, `GroupRestart`, `DesiredState`, `Availability`, `ConfigFeed`, `SyncGate`: the
  concurrent protocols between tether, daemons and database.
- `Segments`, `Ipv4`, `RdmaSubnets`: which network ports are cabled together, and addresses on them.
- `TensorParallel`, `KvCacheFloor`, `Footprint`: how much memory a model takes on every card.
- `Catalog`: local model files, their includes, and the swap to a new catalog.
- `Text`, `Decimal`, `Arithmetic`, `Listing`, `Options`: string operations and arithmetic the sources rely on.

Where the code does less than one would wish, the exact condition is proved:

- A keepalive frame sent before the source's first byte hides a byte order mark. Whatever is chunked, fired and
  sent afterwards, the client then reads all but the first line behind the mark. Meaning is kept if and only if
  the stream has no mark, or no frame leads, or that first line says nothing that the rest does not say.
- An allow-listed request parameter whose path runs through a name that every JavaScript object
  inherits (`constructor`, `toString`, ...) is read but does not arrive in the result.
- A host that serves both the final and the early model is looked up as the final model's installation
  even when the early one was rolled; otherwise a found location belongs to the model whose name is forwarded.
- A signature is accepted at most once while the clock never goes back. If it does, a fresh replay is accepted
  if and only if a request in between came with a reading past the signature's window and past everything
  queued before it.
- Held admissions stay within the limit while the counter does not expire; every expiry lets in at most the
  limit again, and for every limit and number of expiries some run holds that many.
- A string with a NUL survives quoting and is taken by no shell.
- The rate limiter's comment speaks of one-minute totals; the theorem needs every half-open minute that
  ends at a request to be within the allowance, for any positive allowance, whole or not.

Lemmas on which Dafny would try an induction of its own carry `{:induction false}`, so that each induction
is the one written in the proof.

## Model

| member | source | states |
|---|---|---|
| SseKeepalive.KeepaliveStream.Pull | packages/xinity-ai-gateway/src/llm-forward/util.ts:73-84 | forwarding a chunk enqueues it, remembers the last three bytes and the boundary, and restarts the timer |
| SseKeepalive.KeepaliveStream.OnTimer | packages/xinity-ai-gateway/src/llm-forward/util.ts:59-67 | the timer enqueues a frame exactly at an event boundary and re-arms |
| SseKeepalive.TailDecidesAsWhole | packages/xinity-ai-gateway/src/llm-forward/util.ts:31-51 | the test on the last three bytes answers as it would on everything sent so far |
| SseKeepalive.BlankLineTestIsExact | packages/xinity-ai-gateway/src/llm-forward/util.ts:31-41 | the byte test holds if and only if the last line, in the standard's sense, ended and was empty, for LF, CR and CR LF endings |
| SseKeepalive.BoundaryFlagIsExact | packages/xinity-ai-gateway/src/llm-forward/util.ts:56-84 | for every chunking the flag says exactly whether the source is between two events |
| SseKeepalive.FrameAtBoundary | packages/xinity-ai-gateway/src/llm-forward/util.ts:26 | a comment frame put between two events changes nothing the client sees, a CR LF split around it included |
| SseKeepalive.FramesPreserveMeaning | packages/xinity-ai-gateway/src/llm-forward/util.ts:53-95 | for every chunking, every timer firing and whatever follows, the client gets the same events with and without frames, unless a frame precedes a byte order mark |
| SseKeepalive.KeepalivePreservesMeaning | packages/xinity-ai-gateway/src/llm-forward/util.ts:53-95 | the same for the deployed frame and every source without a byte order mark |
| SseKeepalive.LeadingFrameDropsFirstLine | packages/xinity-ai-gateway/src/llm-forward/util.ts:53-95 | for every run in which a frame led a source with a byte order mark, the client reads all but the first line behind the mark, and without the wrapper all of it |
| SseKeepalive.MeaningKeptIff | packages/xinity-ai-gateway/src/llm-forward/util.ts:53-95 | for every run the meaning is kept if and only if there is no mark, or no frame leads, or the stream means the same without its first line |
| SseKeepalive.FrameBeforeBomCanLoseAnEvent | packages/xinity-ai-gateway/src/llm-forward/util.ts:56-64 | a concrete run, one firing before the first chunk, on which that line carries an event |
| TetherStream.StreamDecoder.Receive | packages/xinity-ai-daemon/src/modules/tether-client.ts:177-213 | one chunk moves the decoder's buffer, event and data as the specification says |
| TetherStream.FeedConcat | packages/xinity-ai-daemon/src/modules/tether-client.ts:177-213 | cutting a text in two makes no difference to the decoder |
| TetherStream.ChunkingDoesNotMatter | packages/xinity-ai-daemon/src/modules/tether-client.ts:165-214 | any chunking decodes as the whole text does |
| TetherStream.DecodeOne | packages/xinity-tether/src/connections.ts:27-29 | one printed event or keepalive is decoded to just that event and leaves nothing buffered |
| TetherStream.DaemonReceivesWhatTetherSent | packages/xinity-tether/src/connections.ts:27-29 | any messages, keepalives among them and cut into chunks anywhere, are received in order: every non-empty state and configuration with its own text, every notice, and nothing else |
| TetherWire.AnyClientReadsTheEvents | packages/xinity-tether/src/connections.ts:27-29 | a client that follows the standard reads the same events off the printed text, names and data, and nothing for a keepalive |
| EventReader.EventStreamReader.Receive | packages/xinity-ai-gateway/src/llm-forward/util.ts:208-221 | a chunk yields every event it completes, in order, and keeps the rest |
| EventReader.EventStreamReader.End | packages/xinity-ai-gateway/src/llm-forward/util.ts:223-224 | at the end an unterminated event still counts unless only white space is left |
| EventReader.IndexOfBoundary | packages/xinity-ai-gateway/src/llm-forward/util.ts:213 | the first blank line, and none exactly when there is none |
| EventReader.DrainConcat | packages/xinity-ai-gateway/src/llm-forward/util.ts:213-220 | draining early and draining late find the same events, a boundary split between chunks included |
| EventReader.ChunkingDoesNotMatter | packages/xinity-ai-gateway/src/llm-forward/util.ts:201-225 | two ways of cutting one stream yield the same events |
| EventReader.FramesReadBackInChunks | packages/xinity-ai-gateway/src/llm-forward/util.ts:158-159 | trimmed one-line data written as frames and cut anywhere is read back exactly and in order, to the end of the stream |
| EventReader.EventSaysItsFields | packages/xinity-ai-gateway/src/llm-forward/util.ts:226-248 | an event written as fields reads as what they say: the last event and id, and the data joined line by line |
| EventReader.RestCountsUnlessBlank | packages/xinity-ai-gateway/src/llm-forward/util.ts:223-224 | the rest at the end is an event exactly if it has more than white space |
| CanonicalJsonLaws.SameMeaningSameText | packages/common-env/src/content-hash.ts:8-23 | values equal up to key order, dropped undefined members and undefined-as-null print alike |
| CanonicalJsonLaws.UniquelyDecodable | packages/common-env/src/content-hash.ts:9-23 | two printed values followed by anything a value may be followed by agree only if the values mean the same |
| CanonicalJsonLaws.CanonicalIffSameMeaning | packages/common-env/src/content-hash.ts:1-23 | equal text if and only if equal meaning |
| CanonicalJsonLaws.KeyOrderDoesNotShow | packages/common-env/src/content-hash.ts:8-22 | reordering an object's members keeps its text |
| CanonicalJsonLaws.QuoteDecodes | packages/common-env/src/content-hash.ts:14 | a quoted string is self-delimiting and escapes injectively, lone surrogates and control characters included |
| CanonicalJsonLaws.ReadsBack | packages/common-env/src/content-hash.ts:9-23 | a JSON reader by the grammar of RFC 8259 that knows nothing of the printer gets the meaning back from the text, stops where it ends, and meets the keys of every object in ascending order |
| CanonicalJsonLaws.QuoteReadsBack | packages/common-env/src/content-hash.ts:14 | that reader gets every string back unit by unit, escapes and unpaired surrogates included |
| CanonicalJsonLaws.EscapeIsShortest | packages/common-env/src/content-hash.ts:14 | no text that reads as the string is shorter than the printed one, so nothing is escaped without need |
| CanonicalJsonLaws.LessIsBefore | packages/common-env/src/content-hash.ts:21 | keys are compared by their first differing code unit |
| ShellQuote.SplitGivesBackArgv | packages/common-env/src/index.ts:36-46 | splitting the quoted command gives back every NUL-free argument list, empty strings, quotes, blanks and newlines included |
| ShellQuote.SplitGivesBackIffNulFree | packages/common-env/src/index.ts:36-46 | the round trip holds exactly for lists without NUL |
| ShellQuote.NulIsRefused | packages/common-env/src/index.ts:36-46 | no word splitting accepts an input with a NUL |
| ShellQuote.LeftAsItIsIff | packages/common-env/src/index.ts:36-46 | an argument is left as it is exactly if no character of it needs quotes |
| RateLimiter.Limiter.TryTake | packages/xinity-infoserver/rate-limit.ts:48-62 | one request spends a token of the refilled bucket or is refused; a new key starts with a full bucket |
| RateLimiter.Limiter.SweepFull | packages/xinity-infoserver/rate-limit.ts:64-70 | a sweep drops exactly the buckets that are full by then |
| RateLimiter.SweepsChangeNoAnswer | packages/xinity-infoserver/rate-limit.ts:29-30 | on a clock that does not go back, removing all sweeps from a run leaves every answer as it was |
| RateLimiter.GrantsAreBounded | packages/xinity-infoserver/rate-limit.ts:38-62 | any stretch of a run grants a key at most a minute's allowance, rounded, and the share of it that the stretch earns |
| RateLimiter.FirstRequestsAreGranted | packages/xinity-infoserver/rate-limit.ts:22-24 | of a new client's simultaneous requests exactly the first are granted, as many as the whole number nearest to the allowance and at least one |
| RateLimiter.SweepForgetsIdle | packages/xinity-infoserver/rate-limit.ts:64-70 | a sweep forgets exactly the clients whose allowance has come back in full |
| RateLimiter.BudgetBoundsTotal | packages/xinity-infoserver/rate-limit.ts:10-15 | requests that keep every minute within the allowance never outrun burst and refill between any two of them |
| RateLimiter.InBudgetIsNeverRefused | packages/xinity-infoserver/rate-limit.ts:10-15 | a client within the allowance in every sliding minute is never refused, however unevenly it arrives and whatever is swept |
| Semaphore.Semaphore.OnAcquire | packages/xinity-ai-gateway/src/semaphore.ts:19-39 | an acquire takes a free slot at once or joins the queue's end |
| Semaphore.Semaphore.OnTimeout | packages/xinity-ai-gateway/src/semaphore.ts:26-29 | a timed-out waiter is answered no and stays in the queue as dead |
| Semaphore.Semaphore.OnRelease | packages/xinity-ai-gateway/src/semaphore.ts:10-17 | the loop over the queue is the specified release |
| Semaphore.ReleaseServesOldest | packages/xinity-ai-gateway/src/semaphore.ts:10-17 | a release passes over dead waiters to the oldest live one, and frees the slot only without any |
| Semaphore.SlotsAreBounded | packages/xinity-ai-gateway/src/semaphore.ts:5-43 | in every run the counter equals the slots held and never passes the limit, and somebody waits only while all are taken |
| Semaphore.EachIsAnsweredOnce | packages/xinity-ai-gateway/src/semaphore.ts:24-39 | in every run each acquire is either waiting or answered, and no answer changes |
| Semaphore.TimedOutNeverHolds | packages/xinity-ai-gateway/src/semaphore.ts:26-33 | in every run whoever timed out was told no for good and holds no slot, and nobody else is told no |
| Semaphore.ToldYesHolds | packages/xinity-ai-gateway/src/semaphore.ts:10-24 | in every run whoever was told yes holds a slot until it lets go |
| Semaphore.FreedSlotGoesToOldest | packages/xinity-ai-gateway/src/semaphore.ts:10-17 | in every run a slot given back goes to the longest waiting, if anybody waits |
| MemoryCache.Cache.Remove | packages/xinity-ai-gateway/src/cache.ts:92-98 | removing keeps the size counter equal to the summed key and value lengths |
| MemoryCache.Cache.Read | packages/xinity-ai-gateway/src/cache.ts:99-106 | reading drops an expired entry and otherwise gives what a plain unbounded map with expiry holds |
| MemoryCache.Cache.Store | packages/xinity-ai-gateway/src/cache.ts:107-117 | after a store the size is within the limit and the eviction loop has removed the specified prefix |
| MemoryCache.EvictsShortestPrefix | packages/xinity-ai-gateway/src/cache.ts:111-116 | eviction removes the shortest oldest-written prefix that suffices |
| MemoryCache.NewestSurvives | packages/xinity-ai-gateway/src/cache.ts:107-117 | the latest write survives whenever it fits by itself |
| MemoryCache.Cache.Get | packages/xinity-ai-gateway/src/cache.ts:137 | a read gives nothing or what the plain map holds, the latter whenever the entry is kept and live; no live entry is lost |
| MemoryCache.Cache.MGet | packages/xinity-ai-gateway/src/cache.ts:138 | the same for every key of a list, in order: a kept live entry is read, and no live entry is lost |
| MemoryCache.Cache.Set | packages/xinity-ai-gateway/src/cache.ts:118-120 | a write reaches the plain map with its expiry and evicts as a store does |
| MemoryCache.Cache.Del | packages/xinity-ai-gateway/src/cache.ts:140 | a deletion removes the key and nothing else |
| MemoryCache.Cache.DelPrefix | packages/xinity-ai-gateway/src/cache.ts:141-147 | removing while iterating removes exactly the keys with the prefix |
| MemoryCache.Cache.Sweep | packages/xinity-ai-gateway/src/cache.ts:122-129 | the periodic sweep removes exactly the expired entries, so nothing readable |
| MemoryCache.Cache.Incr | packages/xinity-ai-gateway/src/cache.ts:148-152 | the counter read afterwards is one more, whenever it fits and does not expire at once; the other entries are those a store leaves |
| MemoryCache.Cache.TryIncr | packages/xinity-ai-gateway/src/cache.ts:153-160 | granted exactly below the limit; a refusal drops only an expired counter, a grant counts one and evicts as a store does |
| MemoryCache.Cache.Decr | packages/xinity-ai-gateway/src/cache.ts:161-166 | a live counter goes down by one, keeps its expiry and evicts as a store does; an absent or expired one becomes absent and nothing else changes |
| MemoryCache.CounterShows | packages/xinity-ai-gateway/src/cache.ts:148-152 | a counter starts from 0, also once expired, and shows the number its live entry spells |
| MemoryCache.WrittenUntilExpiry | packages/xinity-ai-gateway/src/cache.ts:99-120 | a written value is there until its time to live is over |
| RoutingCache.ModelSources.Begin | packages/xinity-ai-gateway/src/llm-forward/model-data.ts:148-156 | a query that misses the cache remembers the generation it started in |
| RoutingCache.ModelSources.End | packages/xinity-ai-gateway/src/llm-forward/model-data.ts:190-195 | its result is stored only if the generation is still the same |
| RoutingCache.ModelSources.Invalidate | packages/xinity-ai-gateway/src/llm-forward/model-data.ts:61-64 | an invalidation empties the cache and moves the generation on |
| RoutingCache.HitsSeeNotifiedChanges | packages/xinity-ai-gateway/src/llm-forward/cache-invalidation.ts:22-32 | in every run no hit serves data read before a change whose notification has been delivered |
| RoutingCache.GenerationTellsOvertaken | packages/xinity-ai-gateway/src/llm-forward/model-data.ts:55-59 | the generation a query brings back counts exactly the invalidations that overtook it |
| RoutingCache.StoredUnlessOvertaken | packages/xinity-ai-gateway/src/llm-forward/model-data.ts:190-195 | a result is stored exactly when no invalidation came in between |
| RoutingCache.StoredServesUntilExpiry | packages/xinity-ai-gateway/src/llm-forward/model-data.ts:148-195 | a stored result is a hit until its time to live, counted from the start of the query, is over |
| RoutingCache.HitsAreLive | packages/xinity-ai-gateway/src/llm-forward/model-data.ts:148-156 | in every run a hit is a result some query of the key came back with and is not expired |
| LoadBalancer.SelectLeastConnections | packages/xinity-ai-gateway/src/llm-forward/load-balancer.ts:150-184 | the hint wins if nobody is more than the margin less loaded, else the first least-loaded host |
| LoadBalancer.SelectByStrategy | packages/xinity-ai-gateway/src/llm-forward/load-balancer.ts:117-208 | a single candidate is taken as it is, a connection is tracked exactly if the counts were used, the random fallback is taken exactly on a cache error, and each reason says which host it stands for |
| LoadBalancer.PickIsDetermined | packages/xinity-ai-gateway/src/llm-forward/load-balancer.ts:117-208 | that description leaves no choice: strategy, hint and answers determine the pick |
| LoadBalancer.FirstHint | packages/xinity-ai-gateway/src/llm-forward/load-balancer.ts:88-100 | the hint is a remembered candidate, and none exactly when no remembered host is a candidate |
| LoadBalancer.ChooseFinalModel | packages/xinity-ai-gateway/src/llm-forward/load-balancer.ts:210-221 | the roll decides while both roles have hosts; the chosen role lacks hosts only if both do |
| LoadBalancer.SelectHost | packages/xinity-ai-gateway/src/llm-forward/load-balancer.ts:223-266 | nothing is selected exactly when no host is left, otherwise the pick the roll, hint and strategy demand |
| LoadBalancer.PickIsCandidate | packages/xinity-ai-gateway/src/llm-forward/load-balancer.ts:223-266 | whatever cache and chance say, the host is a candidate of the chosen role, and a tracked one is near the least loaded |
| LoadBalancer.RoundRobinReachesEachOnce | packages/xinity-ai-gateway/src/llm-forward/load-balancer.ts:142-148 | among consecutive counter values, as many as hosts, exactly one makes the round-robin strategy pick a given host, whatever the hints |
| Admission.AdmissionLimit | packages/xinity-ai-gateway/src/llm-forward/load-balancer.ts:270-272 | the limit exceeds the batch by a quarter rounded up and at least by one |
| Admission.Admissions.OnAdmit | packages/xinity-ai-gateway/src/llm-forward/load-balancer.ts:275-288 | a release is handed out unless the counter has reached the limit; only a counted one holds the counter up |
| Admission.Admissions.OnRelease | packages/xinity-ai-gateway/src/llm-forward/load-balancer.ts:288-293 | a release gives its counter back once |
| Admission.HeldIsBounded | packages/xinity-ai-gateway/src/llm-forward/load-balancer.ts:270-294 | over every interleaving, with failing increments and decrements, the counted admissions held stay within the limit, plus at most the limit for every expiry of the counter; without failed decrements and expiries the counter is their number |
| Admission.ExpiryCanOverfill | packages/xinity-ai-gateway/src/llm-forward/load-balancer.ts:280 | the bound is tight: for every limit and every number of expiries there is a run that holds exactly as much as the bound allows |
| Admission.RefusedIffFull | packages/xinity-ai-gateway/src/llm-forward/load-balancer.ts:280-287 | while nothing failed or expired a request is refused exactly when its installation is full |
| Admission.LetInUnlessFull | packages/xinity-ai-gateway/src/llm-forward/load-balancer.ts:275-288 | an unlimited installation and a failing cache always let a request in uncounted; otherwise it is let in and counted exactly below the limit |
| Admission.ReleaseIsOnce | packages/xinity-ai-gateway/src/llm-forward/load-balancer.ts:288-293 | releasing frees exactly that admission and a second call changes nothing |
| Admission.ReleaseUndoesAdmit | packages/xinity-ai-gateway/src/llm-forward/load-balancer.ts:275-294 | admitting and releasing leaves every counter as it was |
| ModelLookup.CollectSources | packages/xinity-ai-gateway/src/llm-forward/model-data.ts:183-189 | every host of the rows once, with its last row, in the order of the first rows |
| ModelLookup.GetModelInfo | packages/xinity-ai-gateway/src/llm-forward/model-data.ts:280-334 | unknown exactly without access; otherwise as the selection loop, with no early hosts unless there is an early model |
| ModelLookup.SelectAndAdmit | packages/xinity-ai-gateway/src/llm-forward/model-data.ts:297-334 | the loop ends for any answers; found holds one admission exactly if limited and counted, and the tracked connection; every other exit, a failed catalog lookup included, holds nothing; busy means every candidate was tried and refused, unavailable that there was none |
| ModelLookup.TurnsAreDistinct | packages/xinity-ai-gateway/src/llm-forward/model-data.ts:297-323 | no host is tried twice, so there are no more turns than hosts |
| ModelLookup.FoundServesModelIff | packages/xinity-ai-gateway/src/llm-forward/model-data.ts:310-328 | a found answer names the model of the role picked, and its location belongs to that model if and only if the final role was picked or the host does not serve both models at different locations |
| ModelLookup.FoundCanNameTheOtherModel | packages/xinity-ai-gateway/src/llm-forward/model-data.ts:310-328 | a concrete lookup that forwards the early model's name to the final model's installation |
| RequestParams.ReadAtDotPath | packages/xinity-ai-gateway/src/llm-forward/util.ts:260-267 | the loop reads what stands at the path, through objects and arrays |
| RequestParams.AtWritten | packages/xinity-ai-gateway/src/llm-forward/util.ts:269-279 | one write, for every place in the tree: the leaf, the objects it opens, everything else untouched |
| RequestParams.AcceptedStayOpen | packages/xinity-ai-gateway/src/llm-forward/util.ts:297-309 | overlapping accepted paths cannot clash: a place the body passes through is no leaf of it |
| RequestParams.ExtractAllowedRequestParams | packages/xinity-ai-gateway/src/llm-forward/util.ts:289-312 | nothing exactly if no entry passes; otherwise the tree that every accepted path, and no other, put there |
| RequestParams.LeavesAreExactly | packages/xinity-ai-gateway/src/llm-forward/util.ts:281-312 | the leaves are exactly the accepted paths that stay in the tree, with the body's own values, none of them blocked |
| RequestParams.ListedArrivesIff | packages/xinity-ai-gateway/src/llm-forward/util.ts:274-275 | a listed, unblocked, well-typed parameter arrives if and only if its path avoids inherited names |
| RequestParams.PassesIff | packages/xinity-ai-gateway/src/llm-forward/util.ts:297-305 | an entry passes exactly if it is not blocked and the body has a value there of the type it names |
| RequestParams.ArrayMembers | packages/xinity-ai-gateway/src/llm-forward/util.ts:260-272 | an array has its elements under their decimal index, its length, and nothing else |
| RequestParams.InheritedNameDoesNotArrive | packages/xinity-ai-gateway/src/llm-forward/util.ts:274-275 | for every inherited name a body and an allow-list whose one validated parameter is lost: the extract is empty |
| RequestParams.OrderDoesNotMatter | packages/xinity-ai-gateway/src/llm-forward/util.ts:297-311 | two allow-lists with the same entries in any order give the same tree |
| NonceWindow.Verifier.Verify | packages/common-env/src/service-auth.ts:90-115 | the pruning loop and the answer are as specified: stale, mismatch, replayed or accepted and remembered |
| NonceWindow.AcceptedAtMostOnce | packages/common-env/src/service-auth.ts:86-89 | while the clock never goes back a signature is accepted at most once, and its nonce not again until its window has passed |
| NonceWindow.AcceptedAgainIff | packages/common-env/src/service-auth.ts:98-113 | for any clock, a fresh replay is accepted if and only if a request in between came with a reading past the signature's window and past all that was queued before it |
| NonceWindow.ClockStepBackLetsReplayIn | packages/common-env/src/service-auth.ts:98-113 | three concrete requests, the clock going back before the last, that accept one signature twice |
| NonceWindow.NewNonceIsAccepted | packages/common-env/src/service-auth.ts:90-115 | a genuine, fresh request with a nonce never accepted before is accepted |
| NonceWindow.VerdictSays | packages/common-env/src/service-auth.ts:90-97 | stale exactly outside a minute either way, a mismatch exactly if fresh and not genuine; only then does the window decide |
| StatusWriter.StatusWriter.QueueInstallationStates | packages/xinity-tether/src/status-writer.ts:137-142 | newer reports replace waiting ones of the same installation, and a flush is scheduled if none is under way |
| StatusWriter.StatusWriter.OnTimer | packages/xinity-tether/src/status-writer.ts:150-164 | the timer takes the whole pending set as one batch |
| StatusWriter.StatusWriter.OnWritten | packages/xinity-tether/src/status-writer.ts:167-168 | a successful write clears the failure count |
| StatusWriter.StatusWriter.OnWriteFailed | packages/xinity-tether/src/status-writer.ts:174-177 | a failure counts, and either puts the batch back or looks for vanished installations first |
| StatusWriter.StatusWriter.OnChecked | packages/xinity-tether/src/status-writer.ts:219-241 | the surviving part of the batch goes back behind newer reports; a failed check keeps it all |
| StatusWriter.StatusWriter.OnSettled | packages/xinity-tether/src/status-writer.ts:153-155 | a settled flush schedules the next if work is left |
| StatusWriter.FlushDelayGrows | packages/xinity-tether/src/status-writer.ts:149 | the retry delay doubles from 200 ms and stops at 30 s |
| StatusWriter.TimerBacksOff | packages/xinity-tether/src/status-writer.ts:144-177 | in every run an armed timer waits 200 ms, doubled for every failure since the last success, up to 30 s |
| StatusWriter.OneFlushAndNeverStuck | packages/xinity-tether/src/status-writer.ts:144-157 | in every run at most one batch is being written, and pending work has a timer armed or a flush running |
| StatusWriter.NoReportIsLost | packages/xinity-tether/src/status-writer.ts:137-183 | in every run a report disappears only when a newer one replaced it or its installation was deleted |
| StatusWriter.StoredNeverGoesBack | packages/xinity-tether/src/status-writer.ts:144 | in every run the stored state of an installation never goes back to an older report |
| StatusWriter.QuietMeansStored | packages/xinity-tether/src/status-writer.ts:137-183 | in every run, once nothing waits or runs, every existing installation shows its last report |
| StatusWriter.WaitingWorkCanFinish | packages/xinity-tether/src/status-writer.ts:150-183 | in every run, whatever phase a flush is in and whatever installations were deleted, steps of the writer alone can leave nothing waiting and nothing running |
| StatusWriter.LastReportsCanBeStored | packages/xinity-tether/src/status-writer.ts:219-241 | those steps store the last report of every installation that still exists, vanished ones in the batch notwithstanding |
| GroupRestart.MembersShareGeneration | packages/xinity-tether/src/status-writer.ts:261-278 | over every interleaving of reads and conditional updates all rows of a group carry one generation, between 1 and the budget plus one |
| GroupRestart.EachGenerationBumpedOnce | packages/xinity-tether/src/status-writer.ts:254-278 | the generations a group was moved on from are 1, 2, 3, ..., each once, at most the budget of them |
| GroupRestart.ReadPlans | packages/xinity-tether/src/status-writer.ts:247-271 | reading a report plans the next generation exactly if it tells of a failure of the current one and fewer than three restarts were made |
| GroupRestart.EveryBumpHasAFailure | packages/xinity-tether/src/status-writer.ts:247-275 | in every run each planned update and each bump goes back to a failure read while the group was on that very generation |
| GroupRestart.FailureRestartsGroup | packages/xinity-tether/src/status-writer.ts:254-275 | a failure of the current generation plans an update that moves every member on |
| GroupRestart.UpdateMovesWholeGroup | packages/xinity-tether/src/status-writer.ts:272-275 | a landing update moves every member on by one, or none |
| DesiredState.NoStageOfAnEarlierAttempt | packages/xinity-tether/src/desired-state.ts:33-35 | a stage shows only if a member reported it for the attempt the row is on |
| DesiredState.EveryCurrentStageShows | packages/xinity-tether/src/desired-state.ts:33-35 | every member of the group takes exactly one place, by rank, with the stage it reported for the current attempt and none otherwise |
| DesiredState.ViewsAreAllMembersByRank | packages/xinity-tether/src/desired-state.ts:33-35 | the views are those of all members of the group, each once, by rank and otherwise in the order met |
| DesiredState.LeftOutIffLeaderless | packages/xinity-tether/src/desired-state.ts:21-25 | an installation is left out if and only if its group has no rank 0 |
| DesiredState.ToldOfItself | packages/xinity-tether/src/desired-state.ts:16-36 | what is told of an installation is its own, and the master address is the first rank 0's on the subnet the member uses first |
| DesiredState.RowsAreToldInOrder | packages/xinity-tether/src/desired-state.ts:41-61 | the rows are told of in order, all but those left out |
| Availability.Connections.Sync | packages/xinity-tether/src/connections.ts:60-70 | a write is chained behind the node's previous one |
| Availability.Connections.Add | packages/xinity-tether/src/connections.ts:72-102 | a new connection gets a fresh number, replaces the old one and asks for a write |
| Availability.Connections.Remove | packages/xinity-tether/src/connections.ts:104-124 | a removal that names another connection changes nothing, any other removes and asks for a write |
| Availability.WritesNeverOverlap | packages/xinity-tether/src/connections.ts:58-62 | in every run at most one write of a node is under way |
| Availability.QuietNodeIsStoredRight | packages/xinity-tether/src/connections.ts:46-70 | in every run, whenever no write of a node is pending, the stored availability equals membership in the map |
| Availability.ReplacementSurvives | packages/xinity-tether/src/connections.ts:110-112 | in every run the number of a replaced connection never matches again: at any later moment a removal that names it changes nothing |
| Availability.ConnectedIffCurrent | packages/xinity-tether/src/connections.ts:72-124 | told from the events alone: a node is connected exactly while a connection of it is current, not replaced and not removed |
| Availability.WritesCanFinish | packages/xinity-tether/src/connections.ts:46-70 | from every run the writes asked for can all take their turn and leave the database right |
| Availability.SettlingForgets | packages/xinity-tether/src/connections.ts:60-70 | a settled write's chain is forgotten exactly if nothing was chained behind it |
| ConfigFeed.DbConfigFeed.OnNotification | packages/common-env/src/config/db-config-feed.ts:38-41 | a notification replaces whatever timer is armed by the coalescing window |
| ConfigFeed.DbConfigFeed.OnTimer | packages/common-env/src/config/db-config-feed.ts:51-69 | the timer starts a read, or asks the running one for another |
| ConfigFeed.DbConfigFeed.OnReadSucceeded | packages/common-env/src/config/db-config-feed.ts:79-95 | a successful read resets the retry delay and starts what was asked for meanwhile |
| ConfigFeed.DbConfigFeed.OnReadFailed | packages/common-env/src/config/db-config-feed.ts:74-95 | a failed read arms a retry unless a timer is armed, and doubles the delay |
| ConfigFeed.AtMostOneRead | packages/common-env/src/config/db-config-feed.ts:64-69 | in every run at most one read is in progress |
| ConfigFeed.NotificationsAreNotForgotten | packages/common-env/src/config/db-config-feed.ts:38-96 | in every run before teardown a notification not yet followed by a successful read has a timer armed, a further read asked for, or a read running that started after it |
| ConfigFeed.RetryDelaysAreBounded | packages/common-env/src/config/db-config-feed.ts:43-49 | in every run the n-th retry in a row waits 1, 2, 4, 8, 16 and then 30 s |
| ConfigFeed.TimersAreArmed | packages/common-env/src/config/db-config-feed.ts:38-95 | in every run, the timer each step leaves: 200 ms for notifications, 1, 2, 4, 8, 16 and then 30 s for retries |
| ConfigFeed.NotificationsCanAlwaysBeRead | packages/common-env/src/config/db-config-feed.ts:38-96 | from anywhere before teardown at most three steps already under way read after every notification |
| SyncGate.Coordinator.OnArrive | packages/xinity-ai-daemon/src/modules/sync-coordinator.ts:96-122 | a trigger starts a run, is queued, or is dropped |
| SyncGate.Coordinator.OnFinish | packages/xinity-ai-daemon/src/modules/sync-coordinator.ts:100-106 | the end of a run starts the queued one |
| SyncGate.EachRunsOnceOrIsDropped | packages/xinity-ai-daemon/src/modules/sync-coordinator.ts:64-73 | in every run at most one workflow is in progress and one queued, and each trigger is dropped or run once, in order |
| SyncGate.DroppedIffQueued | packages/xinity-ai-daemon/src/modules/sync-coordinator.ts:70-72 | in every run a trigger is dropped exactly while a run that has not started is queued |
| Segments.RootOf | packages/common-env/src/node-coupling.ts:152-157 | the root loop ends and finds the root of the tree the parent array describes |
| Segments.UnionDescribes | packages/common-env/src/node-coupling.ts:162 | hanging one root under another keeps the parent array a forest and joins exactly the two trees |
| Segments.IndexMacs | packages/common-env/src/node-coupling.ts:144-149 | a MAC stands for the last port that lists it |
| Segments.JoinNeighbours | packages/common-env/src/node-coupling.ts:158-165 | after the loops every port shares a root with the ports it sees, and only connected ports share one |
| Segments.JoinedRootsAreComponents | packages/common-env/src/node-coupling.ts:141-165 | roots agree if and only if a chain of sightings connects the ports |
| Segments.GroupByRoot | packages/common-env/src/node-coupling.ts:167-171 | each port in exactly one group, by root, groups in the order they are met and ports in order within |
| Segments.Segments | packages/common-env/src/node-coupling.ts:143-172 | the groups are exactly the connected components of the sees relation |
| Ipv4.FormatParses | packages/common-env/src/node-coupling.ts:83-95 | every 32-bit number printed as an address with a prefix parses back to that address in its network (round trip) |
| Ipv4.FormatIsInjective | packages/common-env/src/node-coupling.ts:174 | different numbers have different addresses |
| Ipv4.ParsesIff | packages/common-env/src/node-coupling.ts:83-91 | only four octets and a numeric prefix are a subnet |
| Ipv4.SubnetIsBlock | packages/common-env/src/node-coupling.ts:92-94 | with room for hosts the network address is a multiple of the block size and the broadcast address the last of the block |
| Ipv4.InSubnetIff | packages/common-env/src/node-coupling.ts:187-191 | for every prefix an address lies in a subnet if and only if it is in the block that starts at the network address |
| Ipv4.FreeMemberAddress | packages/common-env/src/node-coupling.ts:215-233 | the highest free host address; none exactly without a readable subnet, with a prefix above 30, or with every host taken |
| Ipv4.GivenAddressIsFree | packages/common-env/src/node-coupling.ts:220-230 | the address given out lies in the subnet, is not taken and is neither of the two no host may use |
| RdmaSubnets.RdmaEndpoints | packages/common-env/src/node-coupling.ts:109-118 | none if and only if no pair of usable addresses shares a subnet, otherwise the first such pair |
| RdmaSubnets.UsableAddressesAreKept | packages/common-env/src/node-coupling.ts:93-107 | the addresses that count are exactly the readable ones RDMA can use on paths with a carrier, in their order |
| RdmaSubnets.NamedAlikeIffShared | packages/common-env/src/node-coupling.ts:178-185 | two addresses name their subnet alike if and only if network and prefix agree |
| RdmaSubnets.SharedOf | packages/common-env/src/node-coupling.ts:208-212 | the listed subnets are exactly those every node has, each once, with an address of every node |
| RdmaSubnets.SharedRdmaSubnets | packages/common-env/src/node-coupling.ts:195-213 | the same from the nodes' ports, where each node counts with its first address on a subnet |
| RdmaSubnets.SharedAddressIsInSubnet | packages/common-env/src/node-coupling.ts:195-213 | every address listed under a subnet lies in it |
| TensorParallel.ShareIsWholeHeads | packages/common-env/src/tensor-parallel.ts:32-48 | a card's share is that of the whole KV heads it stores: an equal part of them, or a copy of one |
| TensorParallel.SharesCoverCache | packages/common-env/src/tensor-parallel.ts:34-49 | the shares of all cards hold the cache at least once, each at most all of it |
| TensorParallel.LayoutHoldsModel | packages/common-env/src/tensor-parallel.ts:22-30 | the cards hold all weights once and the cache at least once |
| TensorParallel.RunsIffHeadsDivide | packages/common-env/src/tensor-parallel.ts:34-49 | a model is split exactly if its heads divide over the cards |
| TensorParallel.LayoutSplits | packages/common-env/src/tensor-parallel.ts:22-30 | a card holds an equal part of the weights and the cache of its whole KV heads |
| KvCacheFloor.PageCoversState | packages/common-env/src/model-catalog/kv-cache-floor.ts:64-65 | a page covers one layer's state and wastes less than a block |
| KvCacheFloor.GroupsCoverLayers | packages/common-env/src/model-catalog/kv-cache-floor.ts:66-70 | the pool has a page for every layer of every context page and state copy |
| KvCacheFloor.PoolCoversRequest | packages/common-env/src/model-catalog/kv-cache-floor.ts:36-40 | a rank's pool is at least the unpaged cost of one full context and its state copies |
| KvCacheFloor.SharedUp | packages/common-env/src/model-catalog/kv-cache-floor.ts:41 | rounding up to hundredths covers the bytes and a hundredth less would not |
| KvCacheFloor.FloorCoversPool | packages/common-env/src/model-catalog/kv-cache-floor.ts:25-42 | the floor is the least whole number of hundredths of a GB whose share covers the rank's pool |
| KvCacheFloor.RankHolds | packages/common-env/src/model-catalog/kv-cache-floor.ts:26-35 | a rank holds its share of a token, its part of the state, the context within the window, and blocks of its kind of attention |
| KvCacheFloor.PagedBytesAre | packages/common-env/src/model-catalog/kv-cache-floor.ts:55-71 | a layered model is charged the fewest pages that hold context and state copies on whole groups, and one more |
| KvCacheFloor.UnpagedBytesAre | packages/common-env/src/model-catalog/kv-cache-floor.ts:44-48 | any other model is charged the fewest blocks that hold the context, one more, and the state |
| KvCacheFloor.FloorServesFullContext | packages/common-env/src/model-catalog/kv-cache-floor.ts:25-42 | given the floor, every rank's share holds a full-context request, and the ranks together the whole cache |
| KvCacheFloor.FloorIsMonotone | packages/common-env/src/model-catalog/kv-cache-floor.ts:26-42 | a longer context or more speculative tokens never lower the floor |
| Footprint.PartedOf | packages/common-env/src/deployment-footprint.ts:191-199 | parts are merged by kind without loss, and the totals are theirs |
| Footprint.DeploymentFootprint | packages/common-env/src/deployment-footprint.ts:149-189 | none exactly if the heads do not divide; otherwise ranks, nodes and totals as specified |
| Footprint.TotalsAreConserved | packages/common-env/src/deployment-footprint.ts:177-188 | grouping ranks by node loses and doubles nothing, for card and host memory |
| Footprint.KindInClosedForm | packages/common-env/src/deployment-footprint.ts:163-180 | of each kind the leading rank has its charge and every other rank one and the same |
| Footprint.GpuHoldsModel | packages/common-env/src/deployment-footprint.ts:163-165 | the cards hold every weight that is not on the host exactly once and the whole cache at least once |
| Catalog.IndexModels | packages/xinity-infoserver/catalog.ts:110-133 | the loop over a document's entries indexes it as specified, in whatever order it visits them |
| Catalog.LocalTakesPrecedence | packages/xinity-infoserver/catalog.ts:116-132 | for any load order a specifier is served from the last local document that has it, and from the last remote one only without any |
| Catalog.SortsDoNotMix | packages/xinity-infoserver/catalog.ts:116-132 | loading each file's includes between the files serves the same as loading all the remote documents before all the files |
| Catalog.CatalogServes | packages/xinity-infoserver/catalog.ts:110-189 | a specifier is served as the last usable file that has it says, else as the last document fetched that has it says, else not at all |
| Catalog.VisitsAreWhatFilesLeadTo | packages/xinity-infoserver/catalog.ts:135-189 | the visits are exactly what the files lead to: each URL once, below the limit, included by a file or by a visited document one level up, and of every document above the limit all the includes |
| Catalog.VisitsAreAccountedFor | packages/xinity-infoserver/catalog.ts:150-183 | the remote documents are exactly those of the visited URLs that parse, and the unreachable ones exactly those that could not be fetched |
| Catalog.Loader.ResolveIncludes | packages/xinity-infoserver/catalog.ts:135-189 | the URLs visited are those of following the include depth first, never too deep and none twice; what is indexed and noted is what they gave; it gives up if and only if that meets an invalid document where one is fatal |
| Catalog.Loader.LoadFile | packages/xinity-infoserver/catalog.ts:208-233 | a usable file is indexed and its includes followed; the load gives up if and only if the file is unusable or an include invalid, where that is fatal |
| Catalog.Loader.LoadFiles | packages/xinity-infoserver/catalog.ts:191-235 | the load succeeds if and only if nothing fatal is met; then the local documents are the usable files in order and the visits those of following their includes |
| Catalog.Catalog.Refresh | packages/xinity-infoserver/catalog.ts:253-281 | the new catalog is the one that the files and the answers determine; the old one stays if and only if the load gives up, or once there is one and some source the directory leads to could not be reached |

## Left out

- Databases, HTTP, Redis, object storage, shell commands, probing of the hardware and file reads are events that succeed or fail with a chosen value; notification delivery, process start-up and metrics are not modelled.
- Floating point is exact real arithmetic, including token refill, sizes and canary percentages.
- UTF-8 decoding is left out: the two event decoders work on characters and chunks are cut between characters; only the keepalive wrapper works on bytes.
- Strings outside `CanonicalJson` are sequences of characters, not UTF-16 code units; lengths in `MemoryCache` count characters.
- How a JSON number is spelled is a parameter of `CanonicalJson`: any spelling the grammar allows. JSON parsing and schema validation in the sources are left out, so a state event counts as received before its payload is parsed.
- `Number` and `parseInt` read only the decimal spelling and, for addresses, blanks; hexadecimal, exponents and fractions read as no number.
- RateLimiter.Limiter.TryTake: the retry-after header and the bucket count are left out.
- Semaphore.Semaphore.OnRelease: releases are matched to acquires answered yes, as the callers do; an unmatched release would drive the counter down.
- MemoryCache.Cache.MGet: all keys are read at one moment; the Redis implementation and its scripts are left out.
- Admission.HeldIsBounded: when a counter expires or is evicted is an event of its own, not tied to a clock or to the cache's size.
- ModelLookup.SelectAndAdmit: what concurrent lookups do shows in the answers of each turn, which are arbitrary; the counting of a tracked connection in the cache, the hint stored after a selection, metrics and the legacy catalog are left out.
- The deployment cache in front of the lookup has no generation guard and relies on its time to live; nothing is claimed of it.
- RequestParams.ExtractAllowedRequestParams: the result tree is a value, since every object in it is fresh; what writing through an inherited name does to the shared prototype objects, and reading inherited members, are left out, and so are type names that every object inherits.
- NonceWindow.Verifier.Verify: a missing or malformed header never reaches the window; the message code is a yes or no.
- `flushAndStop` is left out of `StatusWriter`: after it nothing schedules a flush. The pending batch is a map without insertion order, and stage listeners are left out.
- GroupRestart.EachGenerationBumpedOnce: the database applies a conditional update atomically; each failure report of a batch is an event of its own.
- DesiredState.EveryCurrentStageShows: the host and port fields that are copied unchanged, and the name of the master's machine, are left out.
- `dropAllConnections`, the keepalive loop and sending on a connection are left out of `Availability`; availability writes succeed.
- ConfigFeed.NotificationsAreNotForgotten: nothing is claimed after teardown, when a failing read may still arm a retry.
- SyncGate.EachRunsOnceOrIsDropped: the end of a run and the start of the queued one are one step.
- Segments.Segments: ports are named by their positions; coupling issues, MTU and speed checks and the texts describing them are left out.
- KvCacheFloor.FloorServesFullContext: a hybrid model without layer counts has its state added unpadded, as in the source; what the engine itself pages is not modelled beyond the source's formula.
- Footprint.DeploymentFootprint: finding engine flags, estimating concurrency, rounding host allocations to powers of two, layout options and placement limits are parameters or left out.
- Catalog.VisitsAreWhatFilesLeadTo: depths are those at which URLs are first met, so an include first met deep hides a shorter path to it, as in the source; serialising the catalog and its digest are left out.
