# Syndi infrastructure model

A Dafny model of the parts of the Syndi feed server that hold real algorithms, with proofs of what
they promise:

- **Two-tier TTL cache.** An LRU memory tier over a persistent tier, with deadlines and background
  promotion of persisted values. Modelled twice. `MemoryTier` and `TwoTierCache` are classes whose
  operations run to completion and refine one plain TTL map; queued promotions run later in any
  order, and `tainted` names the keys that were overwritten or deleted from under a queued
  promotion. `CacheProtocol` splits every operation where it takes or releases a lock, lets
  writers of the persistent tier wait for its readers, and quantifies over all interleavings; `CacheAgreement` asks when its tiers can end up apart,
  and `CacheTrace` looks at its runs from outside: calls, their times to live, and answers.
- **Token bucket and retry loop** (`RateLimiter`, `RetryLoop`), over whole runs.
- **Nuxt payload resolver** (`NuxtResolver`), on arbitrary reference graphs, shared and cyclic.
- **Bounded worker pools** (`StoryPool`, `FanOut`, `ResultSlots`), over all schedules.
- **Cached handler and query pipeline** (`CachedHandler`, `FeedPipeline`), over the two-tier cache, with
  the shared feed and its item array as heap objects.
- **Route registry, HTML sanitiser, white space, KDL escape** (`RouteRegistry`, `HtmlSanitizer`,
  `HtmlReader`, `Whitespace`, `KdlEscape`).

`MonotoneClock` is the clock behind every `time.Now()`; each reading may be later than the one
before. Network replies, fetched stories, regular expressions, serialisation and hashing are
parameters: the theorems hold for all of them.

Check everything with `dafny verify dfyconfig.toml`.

## Main results

- `CacheTrace.EveryHitFollowsASet`, `CacheTrace.SetAnswersUntilDeadline`, `CacheProtocol.CanHitIffAlive`, `CacheProtocol.DeletedKeyAnswersIff`,
  `CacheProtocol.LiveEntryIsLostIff`, `CacheAgreement.TiersCanDifferIff`: what interleaved operations can
  and cannot do to a key.
- `TwoTierCache.BadgerCache.*`: two tiers refine one TTL map; `MemoryTier.MemoryCache.RecencyIsTheMostRecent`.
- `RateLimiter.WindowBound`, `RateLimiter.TokensAreConserved`, `RateLimiter.PauseSufficesIffCapacity`, `RateLimiter.ConfiguredLimiterCanGrantIff`.
- `RetryLoop.DoRequestWithRetry`, `RetryLoop.BackoffDoubles`.
- `NuxtResolver.PanicsIff`, `NuxtResolver.StoresIffAcyclic`, `NuxtResolver.StoredTreeResolves`,
  `NuxtResolver.RoundTrip`, `NuxtResolver.ResolveInPlace`.
- `StoryPool.FeedIsPrefixInOrder`, `StoryPool.AlwaysDrains`, `FanOut.FanOutIsBounded`,
  `FanOut.OdailyMapIsScheduleIndependentIff`.
- `FeedPipeline.ProcessedIsBestOf`, `FeedPipeline.ProcessFeed`, `CachedHandler.Handler.ServeAll`,
  `CachedHandler.Handler.NotModifiedIffSameBody`.
- `RouteRegistry.ListsPartitionTable`, `HtmlSanitizer.SanitizeTwice`, `HtmlReader.SanitizedReadsBackIff`,
  `Whitespace.NormalizeWhitespace`, `KdlEscape.EscapeReadsBack`.

## Findings

- `docs/CLIENT_CONFIG.md:40` says that `Retry-After` is respected. The loop doubles the hint and
  then caps it, so the sleep reaches the hint exactly when the hint is at most `maxDelay`
  (`RetryLoop.HonoursRetryAfterIff`). The first sleep without a hint is twice `baseDelay`.
- A deleted value can come back without a new Set. After an undisturbed Delete it can if and only if a
  promotion or an unfinished Set of the key still carried a live value when the Delete was called
  (`CacheProtocol.DeletedKeyAnswersIff`; `CacheProtocol.FinishedDeleteAnswersIff` for any interleaving).
  A run from an empty cache gets there (`CacheProtocol.DeletedValueCanReturn`).
- The persisted entry of a Set can be lost before its deadline, to the deletion that a Get or an Exists
  makes of an older entry it found expired, after it released the lock. `CacheProtocol.LiveEntryIsLostIff`
  says exactly when. Once the hot copy is evicted too, nothing answers for the key:
  `CacheProtocol.CompletedSetCanBeLost` gives a run.
- Sets that overlap each other or a promotion can leave different live values in the two tiers for good,
  so that readers go back to the other value after an eviction. `CacheAgreement.TiersCanDifferIff` says
  exactly when, and `CacheAgreement.OverlappingSetsDiffer` gives a run.
- A limiter configured with a non-positive burst and a rate below one never grants
  (`RateLimiter.ConfiguredLimiterCanGrantIff`); a `Wait` on it ends only with its context.
- A wrapper that refers outside the array, or a negative reference, panics if it is reachable
  (`NuxtResolver.PanicsIff`).
- The Odaily detail map is the same in every schedule exactly when repeated ids fetch equal details
  (`FanOut.OdailyMapIsScheduleIndependentIff`).
- The sanitiser escapes attribute values but not text (`internal/routeutils/content.go:133`). Its output
  reads back as the sanitised stream exactly when in no run of text markup opens or decoding the
  reader's character references, whatever they are, changes anything (`HtmlReader.SanitizedReadsBackIff`); a text node that spells a tag reads as that tag
  (`HtmlReader.TextCanReadAsTag`).

## Model

| member | source | states |
|---|---|---|
| CacheProtocol.EveryHitIsExplained | pkg/cache/badger.go:120-260 | in every interleaving, each hit and each Exists that finds the key goes back to one recorded write of the key, no later than its deadline plus the wait of a single promotion |
| CacheTrace.EveryHitFollowsASet | pkg/cache/badger.go:120-260 | over the steps of any run from a new cache: for every hit, and every Exists that finds the key, the run contains a call of Set with that key and value, a later section of it at an instant not after the answer, and the answer comes within the call's time to live after that instant, plus the wait of one promotion of the key that ran before the answer |
| CacheTrace.SetAnswersUntilDeadline | pkg/cache/cache.go:53-80 | the hot copy of a Set answers until its time to live after the section that wrote it, and not afterwards, unless a step evicts, overwrites or deletes it |
| CacheTrace.PromotionAnswersUntilDeadline | pkg/cache/badger.go:173-178 | so does a promoted copy, for the lifetime left when it was read |
| CacheTrace.PersistedFor | pkg/cache/badger.go:190-209 | a persisted entry answers until less than a second before the deadline encoded beside it |
| CacheTrace.ExistsFinds | pkg/cache/badger.go:229-260 | Exists finds a key with a live copy in either tier |
| CacheTrace.CleanupDropsExpired | pkg/cache/badger.go:351-383 | a cleanup removes exactly the entries that the store hides |
| CacheProtocol.RunKeepsInv | pkg/cache/badger.go:120-269 | no run leaves the invariant: every hot copy, persisted entry and operation in flight is traceable to one recorded Set |
| CacheProtocol.StepKeepsInv | pkg/cache/badger.go:120-269 | one clock tick, call, critical section, eviction or cleanup keeps that invariant |
| CacheProtocol.AdvanceKeepsInv | pkg/cache/badger.go:120-269 | so does one critical section together with the operation or goroutine it hands over to |
| CacheProtocol.CanHitIffAlive | pkg/cache/badger.go:120-209 | in every state, reachable or not: a key can be hit again without another Set if and only if a tier holds a live copy of it or an operation in flight (Set, Get holding a live snapshot, promotion) still carries one |
| CacheProtocol.DeletedKeyAnswersIff | pkg/cache/badger.go:263-269 | after a whole undisturbed Delete, from any state in which it can take the lock, the key can be hit again without a Set if and only if, when the Delete was called, a promotion or an unfinished Set of the key still carried a live value |
| CacheProtocol.FinishedDeleteAnswersIff | pkg/cache/badger.go:263-269 | the same at the last section of any Delete, however other operations have interleaved with it: a copy that entered the hot tier in between counts too |
| CacheProtocol.DeletedValueCanReturn | pkg/cache/badger.go:166-178 | a run from a new cache (Set, eviction, Get, Delete) ends with the deleted value about to be hit again, nothing but a promotion being in flight |
| CacheProtocol.LiveEntryIsLostIff | pkg/cache/badger.go:127-221 | in every reachable state: a live persisted entry can be lost before its deadline without a new write of its key if and only if a write of it is in flight already, or the deletion of an entry that an earlier read found expired |
| CacheProtocol.RunKeepsSnapshots | pkg/cache/badger.go:127-157 | along any run, the entry a locked read has a snapshot of stays in place until that read is done |
| CacheProtocol.CompletedSetCanBeLost | pkg/cache/badger.go:136-164 | a run from a new cache ends with a completed Set that a Get which found the entry before it expired will still delete: once that has run and the hot copy is evicted, no time having passed, nothing answers |
| CacheAgreement.TiersCanDifferIff | pkg/cache/badger.go:120-209 | in every state: some continuation without another Set ends, with every Set finished, in tiers that hold different live values if and only if a value that can still end up in the hot tier differs from one that can still be persisted last |
| CacheAgreement.RunAddsNoEnd | pkg/cache/badger.go:120-209 | no run without another Set adds to the values that either tier can end up with |
| CacheAgreement.OverlappingSetsDiffer | pkg/cache/badger.go:181-209 | a run from a new cache: two overlapping Sets leave different live values in the tiers with nothing in flight |
| TwoTierCache.BadgerCache.constructor | pkg/cache/badger.go:74-116 | a new cache stands for the empty TTL map with nothing queued |
| TwoTierCache.BadgerCache.Get | pkg/cache/badger.go:120-170 | a live hot copy answers and nothing else changes; every hit carries the value of some Set of the key, no later than its deadline plus the longest promotion wait; for an untainted key that is the latest Set not followed by a Delete; a live persisted value always hits; only an expired entry of the key is dropped |
| TwoTierCache.BadgerCache.GetCold | pkg/cache/badger.go:127-169 | a persisted hit is the model's live entry and queues exactly one promotion, of that value, for the lifetime left at a reading within the call; a nil value misses, and a miss queues none |
| TwoTierCache.BadgerCache.RunPromotion | pkg/cache/badger.go:173-178 | any queued promotion, run in any order: with lifetime left its value becomes the most recent hot entry, with that lifetime from now, otherwise the hot tier is unchanged; the refinement is kept and the bound grows at most to its own wait |
| TwoTierCache.BadgerCache.PromoteAndGet | pkg/cache/badger.go:120-178 | after a promotion with lifetime left, and until that is over, a Get answers its value from the hot tier and queues nothing |
| TwoTierCache.BadgerCache.Set | pkg/cache/badger.go:181-209 | both tiers and the TTL map hold the value at that key, with deadlines its time to live after instants of the call, the store hiding its entry less than a second earlier; no other entry changes but for evictions; the key is untainted exactly if no promotion of it is queued |
| TwoTierCache.BadgerCache.SetInBadger | pkg/cache/badger.go:190-209 | the persisted entry carries the deadline computed at an instant of the call and is hidden less than a second before it |
| TwoTierCache.BadgerCache.Delete | pkg/cache/badger.go:263-269 | the key leaves both tiers and the TTL map, nothing else does, and the key is untainted exactly if no promotion of it is queued |
| TwoTierCache.BadgerCache.DeleteExpiredKey | pkg/cache/badger.go:213-221 | exactly that key leaves the persisted tier |
| TwoTierCache.BadgerCache.Exists | pkg/cache/badger.go:229-260 | true only for a live copy in a tier, always for a live hot or persisted one; for an untainted key within the same bound as a hit |
| TwoTierCache.BadgerCache.CleanupBadger | pkg/cache/badger.go:351-383 | removes every entry expired when the scan starts and none that is live when it ends |
| TwoTierCache.Rewritten | pkg/cache/badger.go:173-209 | what the promotion queue says about untainted keys survives any Set or Delete |
| TwoTierCache.StillExplained | pkg/cache/badger.go:181-187 | hot entries of other keys stay explained when the TTL map changes at one key |
| MemoryTier.MemoryCache.constructor | pkg/cache/cache.go:41-51 | an empty cache of the requested size, or the default size when that is not positive |
| MemoryTier.MemoryCache.Get | pkg/cache/cache.go:53-70 | a hit exactly when the entry's deadline is not behind the reading; it makes the key most recent; an expired entry is dropped |
| MemoryTier.MemoryCache.Set | pkg/cache/cache.go:72-80 | the key holds the value with its deadline, every other entry is untouched, and only the least recently used of a full table is evicted |
| MemoryTier.MemoryCache.Exists | pkg/cache/cache.go:82-96 | true exactly for an entry not past its deadline; otherwise the entry is dropped |
| MemoryTier.MemoryCache.Delete | pkg/cache/cache.go:98-102 | that key leaves the table and the recency list, which keep agreeing |
| MemoryTier.MemoryCache.Clear | pkg/cache/cache.go:104-108 | nothing is left |
| MemoryTier.MemoryCache.Len | pkg/cache/cache.go:111-115 | the number of entries, never more than the size |
| MemoryTier.MemoryCache.TryGet | pkg/cache/cache.go:123-135 | the computation runs only on a miss; a live entry is returned as stored; a failure stores nothing, a success is stored with its deadline |
| MemoryTier.MemoryCache.RecencyIsTheMostRecent | pkg/cache/cache.go:41-115 | at any time the recency list is the most recently used end of the keys used and not removed, and without removals as long as the table allows |
| MemoryTier.LruKeepsTheMostRecent | pkg/cache/cache.go:53-102 | after any run of adds, hits and removals the bounded list is the most recently used end of what an unbounded list would hold |
| MemoryTier.LruIsFull | pkg/cache/cache.go:72-80 | without removals nothing is dropped before the table is full |
| MemoryTier.LastUsesAreOrdered | pkg/cache/cache.go:53-102 | the unbounded list holds exactly the keys used and not removed since, each before those used after its last use |
| MemoryTier.PushDropsTheOldest | pkg/cache/cache.go:72-80 | an add of a new key to a full table drops the least recently used key; any other add drops none |
| RateLimiter.WindowBound | internal/client/client.go:60-88 | over any run of any waiters, grants in a window of b - a nanoseconds are at most capacity + rate * (b - a) / 10^9 |
| RateLimiter.TokensAreConserved | internal/client/client.go:62-75 | a run that never fills the bucket loses no token and makes none: tokens held and granted at its end are those held at its start plus rate * elapsed / 10^9 |
| RateLimiter.AfterIs | internal/client/client.go:62-75 | one pass adds rate * elapsed / 10^9 up to the capacity, grants from one token on and takes one |
| RateLimiter.SecondAddsRate | internal/client/client.go:64-65 | a bucket with room gains exactly its rate in 10^9 nanoseconds |
| RateLimiter.TogetherGranted | internal/client/client.go:62-75 | waiters that arrive together are all granted as long as there are whole tokens |
| RateLimiter.TokensStayInBounds | internal/client/client.go:62-75 | tokens lie between zero and capacity at every unlock of a run |
| RateLimiter.PauseSufficesIffCapacity | internal/client/client.go:76-86 | a refused waiter that sleeps its pause is granted if and only if the capacity is at least one |
| RateLimiter.PauseIsNoLonger | internal/client/client.go:76-77 | a waiter that woke more than a millisecond earlier would be refused |
| RateLimiter.NoCapacityNoGrants | internal/client/client.go:65-73 | with capacity below one nobody is ever granted |
| RateLimiter.ConfiguredLimiterCanGrantIff | internal/client/client.go:225-233 | a limiter as configured, with any rate and burst, has some run with a grant if and only if the burst or the rate is at least one |
| RateLimiter.ConfiguredCapacity | internal/client/client.go:225-233 | a configured limiter is full, with the burst as capacity or else the whole part of the rate |
| RateLimiter.Limiter.constructor | internal/client/client.go:51-58 | a new limiter starts full, with the rate and capacity it was given |
| RateLimiter.Limiter.Attempt | internal/client/client.go:61-78 | one pass through the locked section grants, refills and sets the pause as the bucket's algebra says |
| RateLimiter.Limiter.Wait | internal/client/client.go:60-88 | a lone waiter is granted after at most one sleep, for the pause its bucket asks for, unless its context ends during it; without capacity it sleeps until its context ends, never granted |
| RetryLoop.DoRequestWithRetry | internal/client/client.go:241-349 | at most maxRetries + 1 requests, at most one if the method is not idempotent or the body cannot be rebuilt; each earlier pass met a transport error, one of the seven listed statuses or an unreadable 200, and the last did not or was the last allowed; what is returned is what that pass met; sleeps have the closed form and sum to at most maxRetries times maxDelay |
| RetryLoop.BackoffDoubles | internal/client/client.go:282-300 | doubling and capping at every failure equals min(b * 2^j, maxDelay), with b the latest hint or the base and j the failures since it |
| RetryLoop.HonoursRetryAfterIff | internal/client/client.go:286-300 | the sleep after a hint is at least the hint if and only if the hint is at most maxDelay |
| RetryLoop.TotalSleep | internal/client/client.go:265-274 | sleeps in closed form add up to at most maxRetries times maxDelay |
| NuxtResolver.PanicsIff | routes/huxiu/nuxt.go:61-105 | resolving an index panics if and only if it is out of range or some entry reachable from it refers out of range, on cyclic arrays too |
| NuxtResolver.StoresIffAcyclic | routes/huxiu/nuxt.go:61-105 | an entry has a finite plain unfolding, defined without any visited set, if and only if resolving it does not panic and it reaches no cycle |
| NuxtResolver.AcyclicResolveUnfolds | routes/huxiu/nuxt.go:61-105 | then, for any initial visited set disjoint from what is reachable, resolving gives exactly that unfolding |
| NuxtResolver.StoredTreeResolves | routes/huxiu/nuxt.go:61-105 | an array that stores a tree at an entry, with any sharing, and any cycles or bad references elsewhere, resolves that entry to the tree |
| NuxtResolver.RoundTrip | routes/huxiu/nuxt.go:61-105 | writing any JSON tree down as references and resolving it does not panic and gives the tree back |
| NuxtResolver.StoredResolves | routes/huxiu/nuxt.go:61-105 | the same from inside a decoding, while nothing visited stores a tree as shallowly |
| NuxtResolver.StoresOne | routes/huxiu/nuxt.go:61-105 | an entry stores at most one tree |
| NuxtResolver.EncodeStores | routes/huxiu/nuxt.go:56-60 | the written array stores the tree at its last entry and all its references are in range |
| NuxtResolver.VisitedFrame | routes/huxiu/nuxt.go:61-65 | on any graph, only the visited entries that are reachable can change a result |
| NuxtResolver.ResolveInPlace | routes/huxiu/nuxt.go:61-105 | on any array, cyclic or not, and any index, the decoder ends, panics exactly when the specification says so, and otherwise gives its value; at each call the visited map holds exactly the path from the root, wrappers share it and siblings do not see each other's |
| NuxtResolver.ResolveSibling | routes/huxiu/nuxt.go:83-100 | a sibling works on a clone: the caller's visited map is unchanged |
| NuxtResolver.ResolveElements | routes/huxiu/nuxt.go:81-90 | the array branch, element by element, makes the resolved array or panics |
| NuxtResolver.ResolveFields | routes/huxiu/nuxt.go:91-100 | the object branch, in any map order, makes the resolved object or panics |
| NuxtResolver.TrailIsShort | routes/huxiu/nuxt.go:61-65 | a decoding is never deeper than the array is long |
| NuxtResolver.PlainDecodes | routes/huxiu/nuxt.go:61-103 | an index out of range panics; a revisited entry and a scalar are answered as they are; a set is answered as an empty array |
| NuxtResolver.WrapperDecodes | routes/huxiu/nuxt.go:69-79 | a ShallowReactive or Reactive pair with a number stands for the entry of that number |
| NuxtResolver.ArrayDecodes | routes/huxiu/nuxt.go:81-90 | any other array decodes element by element, numbers below the array's length being indexes |
| NuxtResolver.ObjectDecodes | routes/huxiu/nuxt.go:91-100 | an object decodes field by field |
| NuxtResolver.FindObjectWithKey | routes/huxiu/nuxt.go:35-54 | the search ends at the earliest entry that has an answer or panics, and finds nothing only if no entry does either |
| StoryPool.FeedIsPrefixInOrder | routes/hackernews/stories.go:52-90 | in every schedule, cancelled or not: the jobs sent are a prefix of the list, each received and fetched once, every worker has left, and the feed has as many items as fetches of that prefix succeeded, the item of each after one for every success before it |
| StoryPool.EveryPrefixIsPossible | routes/hackernews/stories.go:73-84 | cancellation can stop the handler after any number of stories, and without it all can be sent |
| StoryPool.EightFetchAtOnce | routes/hackernews/stories.go:55-71 | there are eight workers, or one for each of fewer stories, and all of them can fetch at once |
| StoryPool.AlwaysDrains | routes/hackernews/stories.go:59-84 | no reachable state is stuck before the handler returns, and the length of every run is bounded |
| StoryPool.RunIsBounded | routes/hackernews/stories.go:59-84 | a run from any state is no longer than the work left in it |
| StoryPool.NextStepIsEnabled | routes/hackernews/stories.go:59-84 | progress needs no cancellation |
| StoryPool.RunKeepsInv | routes/hackernews/stories.go:52-90 | no slot is written twice and a job is with one worker or finished, never both |
| StoryPool.StepKeepsInv | routes/hackernews/stories.go:52-90 | every step of producer, workers and context keeps that |
| StoryPool.StepUsesWork | routes/hackernews/stories.go:59-84 | every step uses up some of the work left |
| StoryPool.LimitStories | routes/hackernews/stories.go:37-40 | the list is cut to its first thirty ids |
| ResultSlots.CollectItems | routes/hackernews/stories.go:86-88 | as many items as filled slots, the item of each filled slot after one for every filled slot before it |
| ResultSlots.SuccessesAreTheFeed | routes/hackernews/stories.go:86-88 | the successes are the values of the filled slots, all of them and in slot order |
| ResultSlots.SuccessesOfPrefix | routes/hackernews/stories.go:86-88 | slots filled up to a prefix give that prefix's successes |
| FanOut.FanOutIsBounded | routes/huxiu/huxiu.go:189-204 | in every schedule at most as many bodies run as the semaphore holds; when the wait ends it is empty and every body has written once |
| FanOut.CapCanBeReached | routes/huxiu/huxiu.go:196-201 | the semaphore holds back no more than it has to: as many bodies as it holds can run at once |
| FanOut.FanOutDrains | routes/odaily/common.go:121-142 | no reachable state is stuck and the length of every run is bounded |
| FanOut.RunKeepsInv | routes/huxiu/huxiu.go:189-204 | the semaphore counts exactly the running bodies throughout a run |
| FanOut.StepKeepsInv | routes/huxiu/huxiu.go:189-204 | every step keeps that |
| FanOut.HuxiuFeedIsScheduleIndependent | routes/huxiu/huxiu.go:188-208 | whatever the schedule, the feed is the entries below the limit, built, in list order |
| FanOut.OdailyMapHoldsSuccesses | routes/odaily/common.go:115-143 | the map has exactly the ids some fetch of which succeeded, each with a detail fetched for it |
| FanOut.LastFetchWins | routes/odaily/common.go:136-138 | for a repeated id the map holds the last fetch to succeed |
| FanOut.OdailyMapIsScheduleIndependentIff | routes/odaily/common.go:115-143 | the map is the same in all schedules if and only if repeated ids fetch equal details |
| FanOut.ConsistentMapsAgree | routes/odaily/common.go:136-138 | with equal details per id, two complete orders of writing make the same map |
| FanOut.EveryOrderIsASchedule | routes/odaily/common.go:121-142 | any order in which every body writes once comes from some complete schedule |
| FeedPipeline.ProcessFeed | internal/middleware/parameter.go:50-91 | the answer is one the reference allows, in fresh storage, and the input array, possibly the cached one, keeps its contents |
| FeedPipeline.ProcessedIsBestOf | internal/middleware/parameter.go:50-91 | sorted and limited to k, the pipeline answers with the k best of one filter, shortened |
| FeedPipeline.LimitKeepsTheBest | internal/middleware/parameter.go:181-193 | cutting a sorted order keeps a sorted sub-multiset of the asked size, and nothing dropped ranks before anything kept |
| FeedPipeline.ThreePassesAreOne | internal/middleware/parameter.go:55-72 | the time window, the inclusion and the exclusion together are one filter by their conjunction |
| FeedPipeline.KeepsExactly | internal/middleware/parameter.go:103-129 | a filter loses nothing it admits and adds nothing |
| FeedPipeline.KeepGoesThrough | internal/middleware/parameter.go:103-129 | a filter goes through a list item by item |
| FeedPipeline.WantedIs | internal/middleware/parameter.go:55-72 | an item is wanted if it lies in the window of that many seconds, a filter matches its title, description, author or a category, and an excluding one matches none of them; what is absent or malformed asks nothing |
| FeedPipeline.WantsSortingIs | internal/middleware/parameter.go:74-78 | sorting is on unless the query gives something else than "true", in any case |
| FeedPipeline.SortedIs | internal/middleware/parameter.go:226-238 | sorted means newest first and nothing dated after anything undated |
| FeedPipeline.ShortenIs | internal/middleware/parameter.go:196-219 | only the description is shortened, to the given length or a hundred characters, and marked |
| FeedPipeline.SortedOrdersAgreeOnDates | internal/middleware/parameter.go:222-241 | the unstable sort leaves only ties open: sorted orders of the same items agree on every date |
| FeedPipeline.SortItemsByPubDate | internal/middleware/parameter.go:222-241 | a fresh permutation, dated before undated and newest first |
| FeedPipeline.SortSlice | internal/middleware/parameter.go:226-238 | in place, sorted and a permutation |
| FeedPipeline.FilterByTime | internal/middleware/parameter.go:159-178 | exactly the dated items later than the window's start at one reading; a malformed window keeps all |
| FeedPipeline.FilterItems | internal/middleware/parameter.go:103-129 | exactly the matching, or exactly the other, items in order; a bad pattern keeps all |
| FeedPipeline.SelectItems | internal/middleware/parameter.go:55-72 | the three passes keep exactly the wanted items and never write the array they were given |
| FeedPipeline.LimitItems | internal/middleware/parameter.go:181-193 | a prefix of the same backing array, or all of it when the limit is malformed, not positive or too large |
| FeedPipeline.ApplyBriefMode | internal/middleware/parameter.go:196-209 | every description in place shortened to the given or default length, nothing else changed |
| FeedPipeline.CopyItems | internal/middleware/parameter.go:95-99 | the same items in storage of their own |
| CachedHandler.Handler.Respond | internal/handlercache/handler.go:163-201 | the body is the serialised pipeline result of that feed, its tag is its digest in quotes, and the answer is 304 without it exactly when If-None-Match equals that tag (section 13.1.2 of RFC 9110) |
| CachedHandler.Handler.Serve | internal/handlercache/handler.go:48-201 | over the two-tier cache: a hit is answered from a feed cached for that path whose deadline, but for the wait of one promotion, had not passed when the request began, a miss only when no live one is cached; a cacheable miss is cached until the ttl after an instant of the request; the answer is processed at an instant of the request; errors are not cached; only the cache, the clock and new objects are written |
| CachedHandler.Handler.ServeAll | internal/handlercache/handler.go:43-202 | over any run of requests with any time, promotions and cleanups between them, every response is the handler's error or comes from a feed the handler returned for the same path, in that request or in an earlier one that cached it and ended at most ttl, and the wait of one promotion, before this one began; no returned feed was ever changed |
| CachedHandler.Handler.NotModifiedIffSameBody | internal/handlercache/handler.go:104-115 | over a run, with a digest that tells bodies apart: a request that carries the tag of an earlier response with a body is answered 304 if and only if what it would be sent is that very body |
| CachedHandler.Handler.SameTagIffSameBody | internal/handlercache/handler.go:268-274 | two responses with bodies have the same tag if and only if they have the same body |
| CachedHandler.Handler.Lookup | internal/handlercache/handler.go:49-79 | a hit is a feed cached for this path, unchanged since, and not past its deadline but for the wait of one promotion; a miss means no live feed is cached |
| CachedHandler.Handler.Remember | internal/handlercache/handler.go:151-161 | the raw feed is stored under its path with its deadline and the other entries stay explained |
| CachedHandler.Handler.constructor | internal/handlercache/handler.go:43-48 | an empty cache shares nothing and explains everything |
| RouteRegistry.ListsPartitionTable | pkg/registry/registry.go:41-73 | each registered route is in exactly one namespace list, once, under its first segment, and the lists' lengths add up to the size of the table |
| RouteRegistry.ListedOnce | pkg/registry/registry.go:61-70 | a route is listed once under its own namespace and nowhere else |
| RouteRegistry.NamespaceGoesThrough | pkg/registry/registry.go:61-70 | a namespace's list goes through the registration order route by route |
| RouteRegistry.NamesAre | pkg/registry/registry.go:50-56 | the namespaces are the first segments of the routes |
| RouteRegistry.LengthsSum | pkg/registry/registry.go:61-70 | the lists together are as long as the registration order |
| RouteRegistry.Registry.constructor | pkg/registry/registry.go:30-38 | an empty registry |
| RouteRegistry.Registry.Register | pkg/registry/registry.go:41-73 | accepted exactly when the path is new; a rejected duplicate changes nothing at all |
| RouteRegistry.Registry.RegisterAll | pkg/registry/registry.go:41-73 | after registering a list in turn, the registered routes are the first ones of their paths |
| RouteRegistry.FirstOfEachPath | pkg/registry/registry.go:45-48 | those are exactly the routes of the list that no earlier route shares its path with, and every path of the list is registered |
| RouteRegistry.Registry.GetRoute | pkg/registry/registry.go:76-81 | the registered route with that path, and none only if no such path was registered |
| RouteRegistry.Registry.GetAllRoutes | pkg/registry/registry.go:84-93 | every registered route once |
| RouteRegistry.Registry.GetNamespaceRoutes | pkg/registry/registry.go:96-104 | the namespace's routes in registration order, none for an unknown namespace |
| RouteRegistry.Registry.GetAllNamespaces | pkg/registry/registry.go:107-116 | every namespace of a registered route once, with its routes |
| HtmlSanitizer.KeptAttrsAreAllKept | internal/routeutils/content.go:138-148 | an attribute is written as often as it occurs if it qualifies, else never |
| HtmlSanitizer.SanitizeNode | internal/routeutils/content.go:126-170 | the recursive writer appends to the shared buffer the text that spells the tree's token stream |
| HtmlSanitizer.WriteAttrs | internal/routeutils/content.go:138-148 | the loop over attributes writes the kept ones, escaped, in order |
| HtmlSanitizer.SanitizeChildren | internal/routeutils/content.go:151-154 | siblings are written in order |
| HtmlSanitizer.SanitizeTwice | internal/routeutils/content.go:126-170 | at token level: sanitising the forest an output denotes writes the same output |
| HtmlSanitizer.OutputIsWellNested | internal/routeutils/content.go:126-170 | at token level: the stream of any tree is well nested and denotes the pruned tree |
| HtmlSanitizer.OutputIsAllowed | internal/routeutils/content.go:126-170 | at token level: only allowed tags appear, with only allowed attributes and safe URLs |
| HtmlSanitizer.OutputKeepsTexts | internal/routeutils/content.go:132-133 | at token level: every text node is kept, in document order |
| HtmlSanitizer.OutputKeepsElements | internal/routeutils/content.go:134-158 | at token level: every allowed element is kept, in document order, with the attributes that qualify |
| HtmlSanitizer.CleanTreeIsUntouched | internal/routeutils/content.go:126-170 | at token level: a tree with nothing to refuse is what its output denotes |
| HtmlReader.SanitizedReadsBackIff | internal/routeutils/content.go:126-170 | for every two tables of character references, one for text and one for attribute values that knows the escaper's five: the text written for a tree reads back as exactly the sanitised stream, all of it allowed, if and only if in no run of text markup opens or decoding changes anything |
| HtmlReader.ReadsBackIff | internal/routeutils/content.go:132-148 | the same for any stream of well-named tags, and any such tables; attribute values always read back |
| HtmlReader.TextCanReadAsTag | internal/routeutils/content.go:132-133 | text that spells a tag is written as it is and reads as that tag, allowed or not |
| HtmlReader.PlainTextIsInert | internal/routeutils/content.go:132-133 | text without less-than signs and ampersands reads back with any table |
| HtmlReader.UnescapeEscape | internal/routeutils/content.go:147 | unescaping an escaped attribute value gives the value back with any table that knows the escapes |
| HtmlReader.OnlyEscapesIsATable | internal/routeutils/content.go:147 | the five references of the escaper are such a table |
| HtmlSanitizer.SanitizeURLIgnoresQuery | internal/routeutils/content.go:87-98 | a URL is refused exactly when, trimmed and in lower case, it begins with javascript:, vbscript: or data: |
| Whitespace.NormalizeWhitespace | internal/routeutils/content.go:372-390 | the one-pass loop with a flag equals splitting into fields and joining with single spaces; its result has no white space but single blanks between other characters, and every other character in order |
| Whitespace.FieldsAppend | internal/routeutils/content.go:375-388 | how one more character changes the fields of a text |
| Whitespace.TrimSpaceIs | internal/routeutils/content.go:88 | trimming cuts off the white space at both ends, all of it and nothing else |
| Whitespace.FieldsOfJoin | internal/parser/extract.go:306 | splitting undoes joining, for any list of words |
| Whitespace.NormalizeTwice | internal/routeutils/content.go:372-390 | normalising is idempotent |
| KdlEscape.EscapeIsOnePass | pkg/logger/kdl_encoder.go:588-595 | the five successive global replacements equal one pass that escapes each character on its own |
| KdlEscape.EscapeReadsBack | pkg/logger/kdl_encoder.go:588-595 | a KDL reader gets the value back and stops at the closing quote, so no quote inside is unescaped |
| KdlEscape.EscapeLeavesOthers | pkg/logger/kdl_encoder.go:588-595 | characters other than the five are not changed |
| KdlEscape.EscapeHasNoControls | pkg/logger/kdl_encoder.go:588-595 | the output holds no raw newline, carriage return or tab |
| MonotoneClock.Clock.Now | pkg/cache/cache.go:62 | a reading is never before an earlier one |
| MonotoneClock.Clock.Sleep | internal/client/client.go:80-86 | a timer fires no earlier than it was set for |

## Left out

- The persistent store's internals, its value-log collection, and `Clear`, `Close` and `GetStats` of the two-tier cache.
- Failing encodes and failing writes of the persistent tier: they are assumed to succeed; a failure would leave the older persisted value.
- The store's own deadline: any instant less than a second before the encoded one, rather than a whole second.
- TwoTierCache.BadgerCache.CleanupBadger: assumes that the store's iterator lists expired items, as the scan does, while a lookup hides them.
- The LRU library: a bounded sequence of keys in order of use, beside the table.
- Overflow of `time.Duration` in 64 bits, and a wall clock that is set back.
- Rounding of `float64` in the limiter and of JSON numbers: both are real numbers.
- Two limiters for one host, which the load-then-store of `getRateLimiter` can create: one limiter is modelled.
- RateLimiter.Limiter.Wait: requires some capacity or a context that ends, because otherwise the loop never does; concurrent waiters are covered by the theorems over runs of readings, not by this method.
- JSON numbers beyond 64 bits used as references, whose conversion Go leaves to the platform.
- Finding and decoding the payload in a page, and the lookups made on the decoded object.
- TwoTierCache.BadgerCache.Get: promises for a tainted key only that a hit carries the value of some Set, because a queued promotion of an older value may already have run.
- CachedHandler.Handler.ServeAll: one request at a time; a hit from the persistent tier hands out the very feed that was cached, where the source hands out a decoded copy of equal content.
- The `Parameter` middleware, which assigns a processed slice to the feed of its own request.
- `GetAllRoutes`, `GetAllNamespaces` and map iteration: any order, as in Go.
- Regular expressions, serialisation, SHA-256, query parsing: parameters of the model.
- The library sort: any result of `FeedPipeline.SortSlice` is one sorted permutation; the theorems hold for all of them.
- Lower-casing outside ASCII, and text that is not valid UTF-8.
- HtmlReader.SanitizedReadsBackIff: the reader is a tokenizer for text and well-formed tags; it keeps names as written and leaves out comments, raw-text elements and tree building.
- `\u{...}` escapes in the KDL reader, which the encoder never writes.
- Building Huxiu and Odaily items, fetching a story, and every other route; logging, configuration, redirects and cookies.
