# A verified model of the image-describing proxy

The proxy sits between a client and a text-only language model. It parses the body of a request, finds
the image blocks in it, has each image described by a vision provider, replaces the blocks by the
descriptions and sends the request on. Descriptions are cached, calls for the same image are merged, a
pool of providers with circuit breakers answers them, a controller adapts how many run at once, and log
lines are written by a goroutine of their own.

The project models these parts and proves what they are for. Each part that changes state in place is an
object here, too, proved against a value-level specification; each part that runs concurrently is a
machine whose atomic steps interleave freely, and its theorems hold after every run.

| module | what it models |
|---|---|
| `Content`, `Rewrite` | JSON values, content blocks with both raw JSON and parsed fields; finding and replacing images by path; the pure JSON rewrite |
| `Requests`, `Bodies` | whole requests: system messages, the search, replacement in any order, validation, the body sent on |
| `Acceptance`, `ReadBack` | which bodies are parsed, accepted and refused, and what the upstream reads in the body sent, both told from the JSON alone |
| `Blocks`, `RequestObjects`, `Notices` | the same with block objects, pointers and replacement in place |
| `Context`, `Excerpts` | the conversation excerpt sent along with an image; which messages and texts it holds |
| `ImagePipeline`, `ImageFates`, `Handler` | the goroutines of all requests: cache lookup, merged calls, cache filling, replacement, counters; what becomes of each image in a run |
| `CircuitBreakers`, `PoolRuns`, `Pools` | the breaker, concurrent pool calls, building a pool and one call |
| `LruOrder`, `Lru` | what an LRU cache means, and the linked list with a map that implements it |
| `Sqlite`, `SqliteHistory` | the persistent table with its separate counter and guarded batch eviction; which rows go and stay, told from the calls |
| `TwoTiers`, `TwoTierRuns` | the LRU over the table: one call at a time, and any number of them interleaved |
| `Adaptive` | the concurrency controller |
| `AsyncLog` | the asynchronous log writer |

Where the code and its comments differ, the model follows the code:

- `Allow` has a branch that hands out a trial to a half-open breaker without one (vision/circuit_breaker.go:97-103); no history reaches it (`HalfOpenRefuses`).
- The excerpt is said to be cut by whole rounds (messages/context.go:10); it is cut line by line (messages/context.go:81-88). `ARoundIsCut` gives the inputs, and `CutsAtRoundsIff` the exact condition: for given lines every cut falls between rounds iff every line but the first is a user's.
- Filling the cache inside the merged call is said to spare later lookups a miss (proxy/handler.go:796-797). That holds for lookups that start after the cache is filled; one that starts between the provider's answer and the filling misses and can call again once the first call is over. `CanCallIffNotCached` gives the exact condition: a task that has not looked yet can still come to call iff the cache does not hold its hash.
- Writes of the composite cache are said to need no lock because duplicates are idempotent (cache/twotier.go:27-30). That holds for a key stored with one value; otherwise a Get can fill the hot layer with a value that has just been replaced. `LayersStayInStepIff` gives the exact condition: from a state at rest with the layers in step, Puts of v under a key keep them in step, however calls interleave, iff the cold layer does not hold the key with another value.
- Eviction is said to trim to nine tenths of the cap (cache/sqlite.go:251); with a cap of 1 this is nothing, so an evicting Put leaves no row, not even its own, and with a larger cap it always leaves some (`EvictingPutLeavesTheFloor`). The counter may pass the cap under concurrent Puts, as the comment there concedes; `OvershootIsBounded` says by how much.

## Model

| member | source | states |
|---|---|---|
| CircuitBreakers.CircuitBreaker.constructor | vision/circuit_breaker.go:63-75 | Thresholds that are not positive fall back to 5 and 30 s; the breaker starts closed |
| CircuitBreakers.CircuitBreaker.TryAllow | vision/circuit_breaker.go:80-107 | Admits exactly when, for whatever history led to its state, `MayTry` says so; the state changes as the transition `Step` does |
| CircuitBreakers.CircuitBreaker.RecordSuccess | vision/circuit_breaker.go:110-117 | The new state is that of a recorded success |
| CircuitBreakers.CircuitBreaker.RecordFailure | vision/circuit_breaker.go:121-139 | The new state is that of a recorded failure, with the opening stamped by the clock |
| CircuitBreakers.ClosedIffFewTrailingFailures | vision/circuit_breaker.go:80-139 | After any history: closed iff the trailing failures are fewer than the threshold; half-open iff the trial flag is set |
| CircuitBreakers.HalfOpenRefuses | vision/circuit_breaker.go:97-103 | A half-open breaker admits nobody: the second-trial branch is never taken |
| CircuitBreakers.SpacingInvariant | vision/circuit_breaker.go:88-95 | Since an opening without a success, the opening time keeps pace with the admissions made, whatever late failures are recorded |
| CircuitBreakers.AdmissionsAreSpaced | vision/circuit_breaker.go:80-139 | After every opening at t0, from closed or from half-open, and no success since, the k-th admission comes no earlier than t0 + k * resetTimeout, for any callers and any late failures |
| CircuitBreakers.AdmittedIffMayTry | vision/circuit_breaker.go:80-107 | After every history at any times a call is admitted iff the trailing failures are fewer than the threshold, or no call was admitted since the last opening and the reset timeout has passed since |
| CircuitBreakers.OpensIff | vision/circuit_breaker.go:121-139 | Exactly which events open the breaker: the failure that completes the threshold in a row, and later ones once a call was admitted since the last opening |
| PoolRuns.BreakerSeesItsHistory | vision/pool.go:125-307 | In every interleaving of calls each breaker lives through a plain history, so the breaker theorems hold for each of them |
| PoolRuns.HalfOpenIsHeldByItsMover | vision/pool.go:131-205 | A breaker is half-open only while the one call that moved it there is still running; that call is unique |
| PoolRuns.QuietPoolHasNoTrial | vision/pool.go:125-307 | With no call running every breaker is closed or open |
| PoolRuns.AdmissionsAreOutcomesPlusRunning | vision/pool.go:131-255 | At every provider: admissions = recorded outcomes + calls running there |
| PoolRuns.BreakerIsToldTheOutcomes | vision/pool.go:131-255 | In every interleaving a breaker was told of as many successes as calls ended with its provider's answer, of as many outcomes as its provider calls ended, and let through the calls admitted there |
| PoolRuns.CallVisitsInOrder | vision/pool.go:125-320 | In every interleaving a call visits entries in order, each at most once, stops at its first success without touching a later breaker, and gives up exactly when every entry was skipped or failed |
| PoolRuns.FinishedCallTally | vision/pool.go:125-320 | skipped + failed + succeeded = entries visited: all with no success if it gave up, otherwise exactly one success |
| Pools.StableSortIsStable | vision/pool.go:73-76 | The order by priority is sorted, a permutation, and keeps entries of equal priority in their order |
| Pools.StableOrderIsUnique | vision/pool.go:73-76 | Sortedness and stability leave one possible order, whatever algorithm computes it |
| Pools.SiftDown | vision/pool.go:73-76 | One insertion in place turns the sorted prefix into the sorted longer prefix and leaves the rest alone |
| Pools.SortByPriority | vision/pool.go:73-76 | The array ends up in the stable order of what it held |
| Pools.CheckEntries | vision/pool.go:54-71 | Stops at the first entry with no name, a used name or no provider, with that error, and has given every earlier entry without a breaker a fresh default one |
| Pools.NewPool | vision/pool.go:48-87 | Succeeds iff there are entries, each has a name and a provider and no name is used twice; otherwise reports the first fault; then the pool is the stable order of the completed entries, with names unique, and it is ready for calls iff no two entries came with the same breaker |
| Pools.TryEntry | vision/pool.go:131-256 | One attempt: skipped, failed or succeeded, and the breaker is stepped by the admission and the outcome |
| Pools.AttemptExtendsTheHistory | vision/pool.go:131-256 | Told from the breaker's history: an attempt it refuses is skipped, an admitted one with an answer succeeds and is recorded as a success, one without fails and is recorded as a failure |
| Pools.DescribeImage | vision/pool.go:104-320 | Returns the first admitted success in priority order, leaves later breakers as they were, fails iff every entry was refused or failed, and the metrics add up to the entries visited |
| LruOrder.DrivenHoldsMostRecent | proxy/handler.go:697-800 | Driven by lookups with a store on each miss, the cache holds exactly the cap most recently accessed distinct keys, in that order |
| LruOrder.HitIffFewKeysSince | cache/lru.go:30-59 | A lookup hits iff the key was accessed before and fewer than cap other keys were accessed since |
| LruOrder.LargerCacheNeverLosesAHit | cache/lru.go:30-59 | A larger cache holds all a smaller one does, in the same order, so it never turns a hit into a miss |
| LruOrder.ServedHoldsMostRecent | cache/lru.go:30-59 | After any Gets and Puts the cache holds exactly the cap most recently used distinct keys, in that order; a Put uses its key, an overwrite too, and a Get if it hits |
| LruOrder.AnswersAreLastStored | cache/lru.go:30-59 | A Get answers the value of the last Put of its key, and hits iff the key is among the cap most recently used |
| LruOrder.DrivenIsServed | proxy/handler.go:697-800 | The driven cache is the cache after the Gets and Puts its accesses amount to, values included |
| Lru.List.PushFront | cache/lru.go:54 | The ring stays linked both ways, with the element next to the sentinel |
| Lru.List.Remove | cache/lru.go:67 | The ring stays linked both ways without the element |
| Lru.List.MoveToFront | cache/lru.go:34 | The ring stays linked both ways with the element next to the sentinel and the others in their order |
| Lru.LRU.Get | cache/lru.go:30-44 | Answers as the recency order does and makes a hit the most recent; list and map stay in one-to-one agreement |
| Lru.LRU.Put | cache/lru.go:46-59 | The recency order becomes that of a store: an overwrite in front, or a new key in front and all beyond the cap dropped; the loop ends for every cap >= 0 |
| Lru.LRU.RemoveOldest | cache/lru.go:62-70 | The last of the recency order goes, from list and map alike |
| Lru.LRU.SameSize | cache/lru.go:12-13 | The map holds exactly as many entries as the list |
| Lru.LRU.MapIsLookup | cache/lru.go:33 | The map answers for every key as a search of the recency order would |
| Sqlite.ConservedStep | cache/sqlite.go:225-291 | Every step of every Put keeps rows = counter + uncounted inserts - unsubtracted deletes |
| Sqlite.ExclusiveStep | cache/sqlite.go:264-267 | Every step keeps at most one eviction at work, with the flag up exactly then |
| Sqlite.EnoughRowsStep | cache/sqlite.go:269-281 | Every step keeps as many rows as the evicting Put has read from the counter |
| Sqlite.EveryRunKeepsInv | cache/sqlite.go:225-291 | All of this holds after every interleaving of Puts |
| Sqlite.RowsAreAccountedFor | cache/sqlite.go:225-291 | In every interleaving: rows = counter + inserts not yet counted - deletes not yet subtracted |
| Sqlite.QuietCounterIsExact | cache/sqlite.go:225-291 | When no Put is running the counter is the number of rows and the flag is down |
| Sqlite.EvictionLeavesTheFloor | cache/sqlite.go:269-281 | In every interleaving a count eviction deletes exactly what it asked for and leaves at least floor(9 * max / 10) rows |
| Sqlite.BoundedStep | cache/sqlite.go:225-291 | Every step keeps the counter, less what evictors are about to subtract, within the base plus unresolved Puts plus Puts that found the flag up |
| Sqlite.OvershootIsBounded | cache/sqlite.go:258-262 | When no Put is running the rows exceed the cap by no more than the Puts that found the flag up since the last eviction read the counter |
| Sqlite.LonePutRestoresCap | cache/sqlite.go:225-291 | From any quiet table, however over-full, one Put run alone ends with at most max rows |
| Sqlite.LonePutBatch | cache/sqlite.go:269-281 | From a table within the cap, expiry off, a Put deletes exactly max + 1 - floor(9 * max / 10) rows if it adds a row to a full table, and nothing otherwise |
| Sqlite.SequentialPutsBalance | cache/sqlite.go:225-281 | Puts one at a time keep within max, and E evictions over N inserts from n0 rows satisfy E * batch <= N + n0 |
| Sqlite.EvictingPutLeavesTheFloor | cache/sqlite.go:269-281 | An evicting lone Put leaves exactly floor(9 * max / 10) rows before expiry: none iff max = 1, and then its own row goes too |
| Sqlite.LonePutIsAMachineRun | cache/sqlite.go:225-291 | From every quiet state of the concurrent machine, one Put alone can do whatever `LonePut` allows, ending with an exact counter |
| Sqlite.EveryLoneRunIsALonePut | cache/sqlite.go:225-291 | From every quiet state of the machine, every run of one Put alone that returns, with any victims and clock at each step, has done what `LonePut` says, ends with an exact counter, the flag down and at most max rows |
| Sqlite.OldestExist | cache/sqlite.go:275 | There is always a set of least recently accessed rows of the size asked for |
| Sqlite.SQLite.Get | cache/sqlite.go:199-223 | Returns the row's description and stamps its access time; nothing else changes |
| Sqlite.SQLite.Write | cache/sqlite.go:226-243 | Inserts or updates the row and keeps the counter exact |
| Sqlite.SQLite.Put | cache/sqlite.go:225-245 | The table goes through what `LonePut` says, with the counter exact afterwards |
| Sqlite.SQLite.EvictIfNeeded | cache/sqlite.go:263-291 | Over the cap exactly the oldest rows of one batch go, then the expired ones; flag down and counter exact afterwards |
| SqliteHistory.RowsHoldTheirPast | cache/sqlite.go:199-244 | In every interleaving each row holds what its key was last given, with the times of that and of its last use, told from the steps |
| SqliteHistory.EvictionTakesTheLeastRecentlyUsed | cache/sqlite.go:47-48 | In every interleaving rows go only by a count eviction or expiry, and one that a count eviction deletes was last used no later than any that stays |
| SqliteHistory.ExpiryTakesTheOld | cache/sqlite.go:282-290 | In every interleaving an expiry deletes exactly the rows last written before the cutoff |
| SqliteHistory.LonePutKeepsItsRow | cache/sqlite.go:225-291 | From every quiet state of the machine, with a cap other than 1 and every other row last used earlier, a run of one Put alone leaves its own row with its value, unless it outlasts the time to live |
| SqliteHistory.TraceHoldsThePast | cache/sqlite.go:199-244 | After any Gets and Puts one at a time each row holds the value and clock of the last Put of its key and the clock of the last call for it |
| SqliteHistory.PutsEvictTheLeastRecentlyUsed | cache/sqlite.go:269-281 | Among any calls one at a time each row a count eviction deletes was last used, by the calls, no later than each row it keeps |
| SqliteHistory.APutKeepsItsRow | cache/sqlite.go:225-281 | With ordered clocks and a cap other than 1 a Put leaves its own row with its value, so a Get right after it hits |
| TwoTiers.TwoTier.Get | cache/twotier.go:61-104 | Answers from the hot layer, else the cold one; a cold hit is backfilled and stamped, a hot hit leaves the cold layer alone |
| TwoTiers.TwoTier.Put | cache/twotier.go:106-109 | Stores in both layers |
| TwoTiers.ApplyKeepsCoherent | cache/twotier.go:61-109 | With cold eviction off, whatever the hot layer holds the cold one holds with the same value, through every operation and restart |
| TwoTiers.AnswersLikeAMap | cache/twotier.go:61-109 | With cold eviction off, every run of operations and restarts, at every hot capacity, answers like an unbounded map |
| TwoTiers.CapacityAndRestartsDoNotShow | cache/twotier.go:36-41 | Two caches of different capacity over the same rows give the same answers, wherever one of them is restarted |
| TwoTiers.TheHotLayerIsWarm | cache/twotier.go:61-109 | Whatever was last answered or stored is in the hot layer, so a Get right after it leaves the cold layer alone; a Get the cold layer answers stamps its row |
| TwoTiers.HotStaysWithinCap | cache/twotier.go:36-41 | The hot layer never holds more than its capacity, through every operation and restart |
| TwoTierRuns.OneGetPerShard | cache/twotier.go:84-103 | In every interleaving at most one Get per shard asks the cold layer or fills the hot one |
| TwoTierRuns.OneFillServesAll | cache/twotier.go:81-103 | Once one Get has filled the hot layer with a key, and until the entry is dropped, no waiting or later Get asks the cold layer for it |
| TwoTierRuns.AHotHitEndsAtOnce | cache/twotier.go:68-75 | A Get whose key is in the hot layer when it looks is answered in that step, whoever holds the lock |
| TwoTierRuns.NoWrongAnswer | cache/twotier.go:61-109 | As long as one key is stored with one value, whatever is stored under others: in every interleaving both layers hold no other value for it and no Get of it answers another |
| TwoTierRuns.StoredKeysAreFound | cache/twotier.go:98-103 | With cold eviction off, a Get that starts when the cold layer holds its key never misses, whatever runs beside it |
| TwoTierRuns.FinishedPutIsStored | cache/twotier.go:106-109 | After a Put has returned the cold layer holds its key |
| TwoTierRuns.EveryAnswerWasTrue | cache/twotier.go:61-104 | At some moment between its beginning and its end, the layers read as one map said what a Get answers, hit or miss, whatever runs beside it |
| TwoTierRuns.LayersStayInStepIff | cache/twotier.go:26-30 | From every run at rest with the layers in step on a key: all continuations that store only v under it end at rest in step iff the cold layer does not hold the key with another value |
| TwoTierRuns.AnotherValueCanGoStale | cache/twotier.go:98-109 | From every run at rest whose cold layer holds the key, one Get and one Put of another value can end at rest with the old value in the hot layer and the new one in the cold |
| TwoTierRuns.TwoValuesCanGoStale | cache/twotier.go:98-109 | Its instance on a table that holds just the key |
| TwoTierRuns.AllCallsCanReturn | cache/twotier.go:61-109 | No deadlock: every run can go on, with no new call, until all calls have returned |
| Adaptive.ClampedIsSane | proxy/adaptive.go:51-88 | Whatever the configuration, the clamped one has 1 <= min <= initial <= max and usable thresholds; a sane one is kept as it is and an empty one gets the defaults |
| Adaptive.SortIntsFacts | proxy/adaptive.go:141 | The order used for the percentile is sorted and a permutation |
| Adaptive.P90ByCounting | proxy/adaptive.go:141-146 | The sorted element at the ninetieth percentile is above t iff more than floor(n/10) elements are, below t iff at least ceil(9n/10) are |
| Adaptive.AdaptiveConcurrency.constructor | proxy/adaptive.go:51-99 | Starts sane, with the initial limit within bounds and no samples |
| Adaptive.AdaptiveConcurrency.Measure | proxy/adaptive.go:132-146 | The loop, sort and index give the percentile element and the number of errors of the window |
| Adaptive.AdaptiveConcurrency.RecordSample | proxy/adaptive.go:112-247 | Window, limit and stamp become those of one recorded sample |
| Adaptive.WindowIsLastSamples | proxy/adaptive.go:119-122 | The window holds the last W samples ever recorded |
| Adaptive.VerdictIsCounting | proxy/adaptive.go:131-198 | An evaluation's branch is a counting rule over the last W samples: decrease iff more than floor(W/10) are slow or the error share is too high, else increase iff at least ceil(9W/10) are fast and none failed |
| Adaptive.LimitStaysInBounds | proxy/adaptive.go:83-88 | The limit stays in [min, max] after every history; switched off, nothing ever changes |
| Adaptive.DecreasesReachTheFloor | proxy/adaptive.go:156-164 | k decreases in a row from L leave at most max(min, ratio^k * L), and L - min of them reach min |
| Adaptive.LimitFollowsTheSamples | proxy/adaptive.go:154-232 | Event by event: an increase moves the limit to min(L + step, max), a decrease to ratio * L rounded down or min if that is more, a hold nowhere; the verdict is the counting rule over the last W samples, and without an evaluation the limit stays |
| Adaptive.IncreasesAddUp | proxy/adaptive.go:193-198 | While every evaluation says increase, k of them from L give exactly min(L + k * step, max) |
| Adaptive.EvaluatesIff | proxy/adaptive.go:112-130 | A sample runs an evaluation iff the controller is on, W samples have come and CooldownMs have passed since the last evaluation, if any |
| Adaptive.EvaluationsAreSpaced | proxy/adaptive.go:127-129 | Any two evaluations are at least CooldownMs apart |
| AsyncLog.NothingIsLost | logging/logging.go:63-93 | In every run in which no send hit a closed channel: accepted entries = written + in the consumer's hand + queued + still with their writers, as multisets |
| AsyncLog.ChannelIsFifo | logging/logging.go:63-93 | Channel entries are written in the order they were sent |
| AsyncLog.OutputIsInOrder | logging/logging.go:63-93 | The output holds the entries in the order they were written, by the consumer and by direct Writes |
| AsyncLog.QueueIsBounded | logging/logging.go:84-86 | The channel never holds more than its capacity; one of capacity 0 only what is being handed over |
| AsyncLog.DirectIffTurnedAway | logging/logging.go:73-93 | A Write takes the direct path iff it looked after Close was called or found the channel full and not being read; otherwise its entry is sent |
| AsyncLog.ClearCloseNeverPanics | logging/logging.go:73-106 | If Close begins with no Write between reading the flag and trying the channel, no send ever meets a closed channel |
| AsyncLog.QuietCloseIsClear | logging/logging.go:73-106 | In particular if Close begins with no Write under way, whatever Writes begin while it runs |
| AsyncLog.SendUnderWayCanPanic | logging/logging.go:81-106 | From every state with a Write about to send, a run that closes the channel first panics |
| AsyncLog.CloseIsSafeIffNoneSending | logging/logging.go:73-106 | After every run: all continuations of a call of Close are free of panics iff no Write is about to send |
| AsyncLog.CloseFlushesEverything | logging/logging.go:96-106 | Unless a send hit a closed channel: when Close has returned, every accepted entry has been written exactly once and whole, but for those of direct Writes still running |
| AsyncLog.CanSettleIffNotDoomed | logging/logging.go:63-106 | No deadlock: from every run without a panic all Writes can return, and Close if it was called, with no panic, iff no Write is about to send on a closed channel |
| AsyncLog.OverlapCanPanic | logging/logging.go:74-86 | A whole run that panics, at any capacity: the flag is read before Close, the send happens after |
| Content.OtherBlocksRoundTrip | messages/content.go:139-142 | A block that is no tool_result is printed as the JSON it was parsed from, unknown fields included |
| Content.ToolResultKeepsFields | messages/content.go:120-137 | A tool_result is printed with every field but content as it was parsed |
| Rewrite.FindIsEligible | messages/parse.go:25-35 | The search finds a path iff it leads to an image through at most 16 tool_result layers |
| Rewrite.FindOnce | messages/parse.go:25-35 | Each image is found once |
| Rewrite.FoundImagesAreDisjoint | messages/parse.go:25-35 | No image found lies inside another |
| Rewrite.EligibleIsShallow | messages/parse.go:5-35 | What is found lies under at most 16 layers and is an image |
| Rewrite.EligibleIffLeads | messages/parse.go:5-35 | What the search is to find, without counting on the way: image blocks with data under at most 16 tool_result layers |
| Rewrite.FindAscends | messages/parse.go:25-35 | Images are found in document order |
| Rewrite.RewriteLeavesNoImage | messages/parse.go:25-35 | After the replacement of all images a second search finds none |
| Rewrite.MarkOneMore | messages/rewrite.go:17-39 | Replacing one more found image in a half-rewritten tree marks exactly that one |
| Rewrite.MarkedAll | messages/rewrite.go:17-39 | With all found images marked the tree is the rewritten tree |
| Rewrite.PipelineIsPureRewrite | messages/content.go:90-143 | Parsing a block tree, replacing every found image by any text per position and printing is exactly the pure JSON rewrite, with all other fields of all blocks unchanged |
| Requests.NormalizeOnce | messages/rewrite.go:46-65 | Normalising removes every system message, changes a request iff it has one, and a second time never |
| Requests.FindImagesIsEligible | messages/parse.go:10-20 | A path is found iff it leads to an eligible image of a user message |
| Requests.FoundOnceAndApart | messages/parse.go:10-35 | Over the whole request each image is found once and none inside another |
| Requests.FoundInOrder | messages/parse.go:10-20 | Over the whole request images are found in document order |
| Requests.SecondSearchFindsNothing | messages/parse.go:10-35 | After the rewrite a second search finds nothing |
| Requests.EachMarksOne | messages/rewrite.go:17-39 | After any distinct replacements exactly those images are replaced and nothing else differs |
| Requests.AnyOrderGivesTheRewrite | proxy/handler.go:625-937 | For fixed texts every completion order of the replacements gives the same request, the one with every image replaced |
| Bodies.DecodedEligible | messages/parse.go:25-35 | The images of a parsed tree are those its JSON shows |
| Bodies.BodyIsPureRewrite | messages/content.go:12-143 | Parsing, normalising, replacing and printing a whole request is the pure rewriting of its JSON |
| Bodies.FoundAreTheImagesOfTheBody | messages/parse.go:10-35 | The images found are exactly those the body's JSON holds in user messages |
| Bodies.ForwardedIsPureRewrite | proxy/handler.go:504-998 | An unparsable body goes on as it came, an invalid request not at all, a body with nothing to do as it came, any other purely rewritten, with the notice iff it held an image |
| Acceptance.ParsedIff | messages/content.go:16-110 | A body is parsed iff it is null or an object whose known fields have the right types at every depth |
| Acceptance.AcceptedIff | messages/validate.go:35-131 | A parsed body is accepted iff, system messages aside, it has messages, all with a valid role and good content, the cleaned model name is not empty and the token limit not negative |
| Acceptance.RefusedIff | proxy/handler.go:504-537 | A body is refused iff it is parsed and not good, all told from its JSON |
| ReadBack.RewrittenBlockReadsBack | messages/content.go:112-143 | An image within reach becomes literally a text block of its text; a tool_result keeps its fields, its content rewritten item by item; any other block stays |
| ReadBack.RewrittenAt | messages/content.go:112-143 | At every path of a block's JSON: an image the search reaches became the text block of the text for its path, any other block but a tool_result is what it was |
| ReadBack.RequestReadsBack | messages/content.go:33-46 | Parsing a printed request gives its model, token limit, stream flag, roles and number of messages, and blocks that print the same |
| ReadBack.SentReadsBack | proxy/handler.go:955-967 | So it is for the request the handler prints, whatever the texts |
| ReadBack.KeptAreTheOthers | messages/rewrite.go:46-65 | The messages sent are exactly those that are no system messages, in their order |
| ReadBack.TheUpstreamReads | proxy/handler.go:955-967 | The body sent holds those messages, each with its role and its content as an array, images of user messages replaced, and the other fields as received, system blocks followed by those moved and the notice |
| ReadBack.TheUpstreamReadsTheText | proxy/handler.go:955-967 | At the place of every image found the body sent holds the text block of its text |
| ReadBack.EmptyContentReadsBack | messages/content.go:43-71 | A message whose content is missing, null or an empty string is printed with null, one with an empty array with an empty array |
| ReadBack.FieldsReadBack | messages/content.go:145-164 | A block printed from its fields parses to these fields |
| ReadBack.ReplacedShowsItsJson | messages/rewrite.go:17-39 | A replaced block shows what its new JSON says and keeps its content and error flag |
| Blocks.ContentBlock.UnmarshalJSON | messages/content.go:90-110 | Builds a tree of fresh blocks that shows the decoded value, or fails iff decoding does |
| Blocks.UnmarshalContent | messages/content.go:53-71 | An array of blocks or a string as one text block; anything else fails |
| Blocks.ContentBlock.MarshalJSON | messages/content.go:120-143 | Prints what the block shows: raw JSON with current content merged in for a tool_result |
| Blocks.ContentBlock.MarshalFromFields | messages/content.go:146-164 | The fallback prints the declared fields only |
| Blocks.ContentBlock.CollectImageBlocks | messages/parse.go:25-35 | Appends, in document order, pointers to exactly the blocks at the found paths |
| Blocks.ContentBlock.ReplaceWithText | messages/rewrite.go:21-38 | Type, text, source and raw become those of a text block; the other fields stay |
| Blocks.ReplaceShows | messages/rewrite.go:17-39 | Changing a block through its pointer changes the tree exactly at its path |
| Blocks.ResolveSame | messages/parse.go:12-13 | Replacements leave every pointer found earlier at its block |
| Notices.DescriptionReadsBack | messages/rewrite.go:10-12 | A wrapped description can be read back, so no two are wrapped alike |
| Notices.TheProxySendsThePureRewrite | proxy/handler.go:955-989 | In the proxy's own wrapping and placeholders: the body sent on is the pure rewriting of the body received, and each image's text wraps the description or placeholder for its own data, a placeholder for data that decode only if a call for their hash failed in the run |
| Notices.TheUpstreamReadsEachDescription | proxy/handler.go:625-989 | In every interleaving: at the place of every image the body sent holds a text block with the wrapped description that a call in the run answered for that image's hash or the cache held to begin with, or the wrapped placeholder if failing open and the data do not decode or such a call failed |
| Notices.ReplaceImageWithDescription | messages/rewrite.go:17-39 | The block becomes the text block of the wrapped description |
| RequestObjects.Request.NormalizeSystemMessages | messages/rewrite.go:46-65 | The loop leaves the request normalised, blocks moved and not copied twice, and counts the system messages |
| RequestObjects.Request.FindImageBlocks | messages/parse.go:10-20 | Returns pointers to exactly the blocks at the found paths, in that order |
| RequestObjects.Request.ReplaceImage | messages/rewrite.go:17-39 | The request changes exactly at the block's path, and every pointer still leads to its block |
| RequestObjects.Request.ReplaceFound | proxy/handler.go:625-921 | Replacing all found pointers in any order leaves the fully rewritten request, with no image left to find |
| Context.HasImageStopsOneLayerSooner | messages/context.go:117-132 | An image is seen here iff it is eligible for replacement under fewer than 16 layers, one less than the search allows |
| Context.CollectTextInto | messages/context.go:143-161 | The recursion with appends collects the texts of a tree in document order |
| Context.CollectBack | messages/context.go:43-60 | Walking back collects, newest first, the lines back to the wanted number of user lines |
| Context.Reverse | messages/context.go:65-68 | The swaps in place reverse the lines |
| Context.FindCut | messages/context.go:77-91 | The cut is where the longest suffix that fits begins, or the newest line |
| Context.JoinLines | messages/context.go:93-104 | Writing each line with a newline and trimming the last one joins the lines |
| Context.ExtractConversationContext | messages/context.go:13-105 | The whole extraction gives the excerpt specified |
| Context.RecentStartsAtARound | messages/context.go:43-60 | The collected lines are the suffix from the recentRounds-th text-bearing user message from the end, or all lines if there are fewer |
| Context.StartIsUnique | messages/context.go:43-60 | Only one suffix starts there |
| Context.CutKeepsTheLongestFit | messages/context.go:77-91 | What is kept is the longest suffix whose bytes plus newlines fit maxChars, or just the newest line |
| Context.AnyLineCanBeTheCut | messages/context.go:77-91 | With maxChars just the bytes it takes, any line is the first one kept |
| Context.CutsAtRoundsIff | messages/context.go:77-91 | For given lines every cut falls between rounds, as the comment promises, iff every line but the first is a user's |
| Context.ARoundIsCut | messages/context.go:77-104 | For every question and answer that do not both fit, the excerpt is the answer alone |
| Context.ExcerptFits | messages/context.go:77-104 | An excerpt of more than one line takes fewer than maxChars bytes |
| Context.ImageDataDoNotMatter | messages/context.go:13-161 | Replacing non-empty image data by other non-empty data changes nothing |
| Excerpts.MessageTextIs | messages/context.go:134-161 | The text of a message is, joined by spaces, the texts of all its text blocks under fewer than 16 tool_result layers, each once and in document order |
| Excerpts.ExcerptIsTheLastSpeakers | messages/context.go:13-105 | Told from the messages: an excerpt is the lines of the last messages that speak, as "[user] text" or "[assistant] text", never that of a user's last message with an image; it is empty only if none speaks or nothing is asked for |
| Excerpts.BytesAreUtf8 | messages/context.go:81-85 | The length the cut goes by is that of the text in UTF-8 |
| ImagePipeline.SingleStep | proxy/handler.go:763-802 | Every step keeps the table of calls in flight exactly the set of leading tasks, each under its hash |
| ImagePipeline.JoinedStep | proxy/handler.go:763-803 | Every step keeps waiting tasks joined to a call for their own hash that is in flight or has returned |
| ImagePipeline.EveryRunKeepsInv | proxy/handler.go:625-921 | All invariants hold after every interleaving |
| ImagePipeline.OneCallPerHash | proxy/handler.go:763-802 | In every interleaving at most one call per hash is in flight |
| ImagePipeline.CacheHoldsOnlyAnswers | proxy/handler.go:798-800 | The cache holds under a hash only what a provider successfully returned for bytes with that hash, or what it held at the start |
| ImagePipeline.TextsAreHonest | proxy/handler.go:669-904 | Every replacement text is such a description, or the fitting placeholder when failing open |
| ImagePipeline.FilledHashIsNotCalledAgain | proxy/handler.go:697-802 | With no eviction of the hash, a lookup that starts after the cache is filled never leads to a call, nor waits for one |
| ImagePipeline.MissedCanStillCall | proxy/handler.go:697-802 | From every run after which a task has missed, some continuation without evictions has it make a call of its own |
| ImagePipeline.CanCallIffNotCached | proxy/handler.go:697-802 | After every run: some continuation without an eviction of its hash has a task that has not looked yet call a provider iff the cache does not hold its hash |
| ImagePipeline.SuccessAloneDoesNotStopASecondCall | proxy/handler.go:793-801 | From every state in which a provider has answered and the cache is not filled yet, another task's lookup misses and makes a second call for the hash |
| ImagePipeline.AllTasksCanEnd | proxy/handler.go:625-923 | No deadlock: every run can go on, with no eviction, until every goroutine has ended |
| ImagePipeline.GroupWithoutErrorRewritesAll | proxy/handler.go:923-937 | If a request's group ends without an error, the counter equals the images found and each was replaced once |
| ImagePipeline.FailOpenNeverBreaks | proxy/handler.go:676-690 | Failing open, only a call to the proxy itself ends a goroutine with an error |
| ImageFates.AnAnswerIsUsed | proxy/handler.go:763-904 | What a provider answers is what the task that called it ends with: that description, or after a failure the placeholder if failing open and an error otherwise |
| ImageFates.ASharedAnswerIsUsed | proxy/handler.go:763-904 | The same for every task that ever waited for that call |
| ImageFates.AHitIsUsed | proxy/handler.go:697-750 | A lookup that finds its hash in the cache ends with what it found |
| ImageFates.NoPlaceholderWithoutAFailure | proxy/handler.go:835-870 | A placeholder for data that decode, and an error without a call to the proxy itself, each come from a call for that image's hash that failed in the run |
| ImageFates.EveryDescriptionCame | proxy/handler.go:697-904 | Every description used was cached at the start or answered to a call for its hash in the run |
| ImageFates.ReplacedInOrder | proxy/handler.go:625-921 | Blocks are listed as replaced in the order of the run |
| Handler.EveryInterleavingRewritesTheRequest | proxy/handler.go:625-937 | In every interleaving of all requests, a group that ends without an error leaves the request with every image replaced by its text, all counted, none left |
| Handler.EveryImageGetsItsOwnText | proxy/handler.go:697-904 | Each image's text is a description a call in the run answered for the hash of what that image's own data decode to, the one its own call answered if it made one that succeeded, or cached under that hash, or if failing open a placeholder for data that do not decode or whose call failed |
| Handler.EveryInterleavingSendsThePureRewrite | proxy/handler.go:955-989 | The body sent on is the pure rewriting of the body received, for the texts the run gave, each of which fits its own image's data |

## Left out

- HTTP, tracing, header copying, response streaming, metrics, ping and doctor probes: plumbing around opaque servers. A provider call ends with a description or an error, at any time.
- The vision-capable passthrough (proxy/handler.go:490-502): the body goes on unparsed or reprinted; nothing is rewritten.
- JSON text syntax, key order, duplicate and case-insensitive keys: the model works on JSON values. Number literals are integers a Go int holds, or other literals.
- Unknown fields of requests and messages: the structs do not keep them, and the model's bodies do not either.
- Decoding and printing of the request and message structs are done by the standard library, so they are functions on values here; blocks are decoded and printed by objects.
- RequestObjects.Request.NormalizeSystemMessages: the source copies block structs into the system slice, where the model moves the block objects; the originals are unreachable afterwards.
- Base64, SHA-256 and WebP conversion: hashing and decoding are parameters. The cleaning of model names is a parameter as well.
- Context.ExtractConversationContext: roles are lower-cased in ASCII only, and texts are valid UTF-8.
- The SQLite engine, pragmas, corruption recovery, statement failures and writers outside the process: each statement is one atomic step on a map of rows.
- TwoTiers.TwoTier.Get: this object runs one call at a time and takes no lock; `TwoTierRuns` interleaves the calls, step by step and with the shard locks, on maps without recency or cold eviction. The hash that picks the shard is a parameter there.
- The image pipeline's cache is one shared map, looked up and filled in one step each; its entries may go, or give way to what was once stored under the hash, at any step. That a lookup of the layered cache, which takes several steps, answers as one look into one map would is `EveryAnswerWasTrue`; how entries go is proved in the cache modules.
- Pools.DescribeImage: entries do not share a breaker (`NewPool` says when), and per-attempt timeouts only decide how a provider call ends. Provider panics are not modelled.
- Pools.SortByPriority: the library's stable sort is modelled by an insertion sort; `StableOrderIsUnique` shows that no other stable sort could give another order.
- Panics inside a merged call and the `shared` flag with the metrics it splits: they belong to the singleflight library.
- Limits on goroutines per request only restrict the interleavings; the theorems hold for all of them.
- Adaptive.VerdictIsCounting: ratios, shares and the 0.9 are exact, where the source rounds floating-point numbers.
- A second Close of the log writer, which returns at once, is not modelled.
- Configuration loading, admin handlers, the setup wizard and the command line: user interface and wiring.
