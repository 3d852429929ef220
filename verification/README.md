# Scraper core: a verified model

This project models the hard core of a concurrent web scraper written in Go and proves what that core promises:
the crawl engine and its two-level concurrency manager, the in-memory URL frontier, URL canonicalisation, the
LRU+TTL response cache, the Kafka consumer with its retries and dead-letter queue, the job manager, the operator's
reconciler, the middleware chain with retry and proxy rotation, and the Redis score.

Code that many goroutines run at once is a *step machine*: a state, a datatype of events (one per atomic section: a
lock-protected block, one atomic operation, one channel operation), `Enabled`, `Apply`, and `IsRun`, the sequences of
states that any interleaving can produce. Threads are a sequence of program counters, so every theorem holds for any
number of them. Code that one goroutine runs by itself is imperative Dafny: classes whose methods are proved against a
function of the old state, and loops with their invariants. What the design promises is then proved about that
function for all inputs and all runs.

| file | component |
|---|---|
| `Collections.dfy`, `Tally.dfy` | optional values; totals over the threads of a step machine |
| `Concurrency.dfy`, `Engine.dfy`, `Service.dfy`, `Crawling.dfy` | `pkg/crawler`: the two machines, the one-shot service, and all three together |
| `PriorityQueue.dfy`, `Frontier.dfy`, `Politeness.dfy` | the in-memory frontier of `pkg/frontier` |
| `Sorting.dfy`, `QueryCodec.dfy`, `Canonical.dfy` | URL canonicalisation |
| `CacheControl.dfy`, `Cache.dfy`, `CacheRuns.dfy` | the caching middleware |
| `Consumer.dfy`, `Jobs.dfy` | `pkg/distributed` |
| `Reconciler.dfy` | `pkg/operator` |
| `Chain.dfy`, `Proxy.dfy` | the middleware chain, retry and proxy rotation |
| `Score.dfy` | the Redis score |

## Where the code does less than its documentation says

- `CrawlDelay` is described as the minimum delay between requests to one domain (`pkg/frontier/memory.go:22-25`).
  The table stores the time of the *check*, so two consecutive releases can even coincide, with a single consumer and
  any delay: `Politeness.ConsecutiveGapCounterexample` is such a run. `Politeness.ConsecutiveGapIff` says, for every run
  and any number of consumers, exactly between which consecutive visits the gap is kept; `RateBound` and
  `SingleConsumerSpan` say what is guaranteed instead.
- `Next` is described as blocking until a URL is available (`pkg/frontier/memory.go:121-122`). With two or more consumers
  one of them can stay blocked although a URL is queued, because notifications coalesce in a one-slot channel:
  `Frontier.StrandedIffSeveralConsumers`.
- `Close` is described as waking any waiting consumers (`pkg/frontier/memory.go:157`). It posts a single token, so with
  two or more consumers one can stay blocked for good: `Frontier.CloseWakesAllIff`.
- `Cache-Control: max-age=0` does not make a response stale at once; it is kept for the default TTL
  (`CacheControl.MaxAgeZeroKeepsDefault`; section 5.2.2.1 of RFC 9111 means the opposite).
- `ResumeJob` is described as Paused to Running, but the transition table also lets it through from Created, and the job
  then runs although its seeds were never published. `Jobs.SeededIffNotResumedUnstarted` says exactly which runs avoid
  this. Starting a paused job instead of resuming it publishes its seeds again: `Jobs.SeedsOnceIff`.
- Trailing slashes are removed "except root path" (`pkg/frontier/canonical.go:61-64`), so `//` becomes the empty path
  while `/` stays: `Canonical.RootIsNotDoubleSlash`.
- `Consumer.Stop` is described as waiting for in-flight tasks (`pkg/distributed/consumer.go:265`), but a cancelled
  consumer gives up tasks whose messages are already committed. No run gives up a task if and only if there is none, or
  broker writes cannot fail and nothing is cancelled: `Consumer.NothingLostIff`. With a working broker a cancellation
  gives up at most two tasks per worker and leaves at most two per worker in the channel
  (`Consumer.CancellationLosesFew`), and one run reaches both bounds (`Consumer.BoundsReached`).
- Every positive multiplier is accepted for the exponential backoff, but with one below 1 the delays of a request can
  shrink from retry to retry: `Chain.DelaysGrowIff` says exactly when they do not.
- Round-robin proxy rotation is fair across the wrap of its 64-bit counter exactly if the number of proxies divides
  2^64: `Proxy.WrapFairIff`.
- The Redis score keeps the (priority, time) order exactly for priorities up to 899: `Score.OrderKeptIff`.

## Model

| member | source | states |
|---|---|---|
| `Concurrency.StepInv` | pkg/crawler/concurrency.go:59-112 | Every atomic section of `Acquire`, `Release` and the double-checked creation of a domain semaphore keeps the accounting: permits in use equal the threads that own one, at each level, and every thread works with its domain's own semaphore. |
| `Concurrency.RunInv` | pkg/crawler/concurrency.go:59-112 | The accounting holds in every state of every interleaving, with cancellations anywhere. |
| `Concurrency.PermitAccounting` | pkg/crawler/concurrency.go:59-112 | In every reachable state both limits hold, the global and per-domain permits in use are exactly those owned by threads past the wait (so a cancelled acquire leaks nothing), and no domain ever has two semaphore objects. |
| `Concurrency.ReleaseFindsItsSemaphore` | pkg/crawler/concurrency.go:79-89 | A release always finds the semaphore its acquire took from and never returns a permit that is not out, so the semaphore library's over-release panic is unreachable. |
| `Concurrency.InsideAtMostLimit` | pkg/crawler/concurrency.go:59-77 | In every state of every run at most GlobalMaxConcurrency requests to a domain are inside at once, and unless per-domain limits are disabled at most PerDomainMaxConcurrency; when they are disabled no domain semaphore exists and nobody waits for one. |
| `Concurrency.DomainStays` | pkg/crawler/concurrency.go:59-90 | Over every step, a call works on one domain from its beginning to its release. |
| `Concurrency.AcquireAlone` | pkg/crawler/concurrency.go:59-77 | From every consistent state with room, an undisturbed acquire succeeds, takes exactly one global permit and, with per-domain limits, exactly one of its domain, and creates the semaphore only if there was none. |
| `Concurrency.ReleaseUndoesAcquire` | pkg/crawler/concurrency.go:79-90 | An undisturbed release after that leaves every permit count as it was before the acquire. |
| `Concurrency.DomainOwnerCanRun` | pkg/crawler/concurrency.go:59-90 | If all permits of a domain are out, some owner of one can take its own next step. |
| `Concurrency.SomeOwnerCanRun` | pkg/crawler/concurrency.go:59-90 | No deadlock between the two levels: for limits of at least one, whenever a thread is blocked, another thread owning a global permit is unblocked and can move towards releasing it. |
| `Concurrency.EveryStepProgresses` | pkg/crawler/concurrency.go:59-90 | Every step other than a new call strictly lowers the total number of steps that threads have left. |
| `Concurrency.QuietMeansNothingOut` | pkg/crawler/concurrency.go:59-90 | A reachable state in which no finishing step is possible has every thread idle and every permit returned; with the previous row, once calls stop, every interleaving ends there. |
| `Engine.StepInv` | pkg/crawler/engine.go:78-161 | Every step of adders, workers, canceller and waiter keeps the WaitGroup equation, the place of every request, one callback per processed request, and the uniqueness of requests. |
| `Engine.WaitGroupAccounting` | pkg/crawler/engine.go:107-161 | In every interleaving the URL WaitGroup equals queued + held by workers + counted by pending adders + held by the drain loop; it is never negative, is at least one wherever `Done` is about to be called, and the queue is never over its bound. |
| `Engine.ExactlyOneDone` | pkg/crawler/engine.go:219-233 | A request is accepted at most once and gets at most one `Done`; it has exactly one as soon as it is neither queued nor held by a worker or the drain loop. |
| `Engine.ZeroMeansProcessed` | pkg/crawler/engine.go:107-122 | If the WaitGroup is zero and nothing was drained, the processed requests are exactly the accepted ones and the queue is empty. |
| `Engine.ZeroInstant` | pkg/crawler/engine.go:107-122 | The helper goroutine of `Wait` can have returned only if the counter was zero at some earlier instant after `Wait` was called. |
| `Engine.WaitNilMeansProcessed` | pkg/crawler/engine.go:107-140 | When `Wait` returns nil, there was an instant after the call at which every URL accepted so far, including those added in callbacks, had been fully processed by a worker, and nothing was ever drained. |
| `Engine.UnprocessedIsQueued` | pkg/crawler/engine.go:107-140 | When `Wait` returns, the accepted requests are exactly those processed, drained and still queued; when it returns nil nothing was drained, so everything was processed if and only if the queue is empty. |
| `Engine.AllProcessedAtReturn` | pkg/crawler/engine.go:107-140 | If nothing was accepted after the instant at which everything had been processed, everything ever accepted, from wherever it was added, has been processed when `Wait` returns nil. |
| `Engine.WaitErrorMeansDrained` | pkg/crawler/engine.go:123-134 | When `Wait` returns with an error, there was an instant after the cancellation at which the queue was empty and every accepted request was processed, drained or in a worker's hands. |
| `Engine.SendAnswers` | pkg/crawler/engine.go:153-160 | Over every step of every interleaving: a send is refused exactly if the queue is full, and otherwise puts exactly its request at the end of the queue and among the accepted ones. |
| `Engine.RefusedOnlyWhenFull` | pkg/crawler/engine.go:153-160 | Only a queue that holds exactly its capacity makes an adder refused. |
| `Engine.QueueIsFifo` | pkg/crawler/engine.go:219-233 | Every step appends one accepted request to the queue, or takes the oldest one for a ready worker or the drain loop, or leaves the queue alone. |
| `Engine.NothingBeforeStart` | pkg/crawler/engine.go:78-110 | In every reachable state before `Start`, no worker has moved, nothing is cancelled or reported, and `Wait` has not begun. |
| `Engine.FlagsStay` | pkg/crawler/engine.go:78-104 | Started, stopped and cancelled are for good. |
| `Engine.StoppedAcceptsNothing` | pkg/crawler/engine.go:143-146 | Once the engine is stopped and no `AddURL` is under way, nothing is ever accepted again. |
| `Engine.AddAlone` | pkg/crawler/engine.go:143-161 | From every state, the steps of one adder with nobody else moving have exactly the effect and the answer of one call of `Crawler.AddURL`. |
| `Engine.Crawler.AddURL` | pkg/crawler/engine.go:143-161 | Without interference it is refused exactly when stopped or full, and then leaves queue and WaitGroup as they were; otherwise both grow by the one request. `Engine.AddAlone` ties the concurrent adder to it. |
| `Engine.Crawler.AddURLs` | pkg/crawler/engine.go:164-171 | It succeeds exactly if everything fits; on refusal exactly the longest prefix that fits stays queued and counted. |
| `Engine.Crawler.Drain` | pkg/crawler/engine.go:123-134 | The drain loop gives every queued request its `Done`, in queue order, and empties the queue. |
| `Service.Submit` | pkg/crawler/service_impl.go:29-76 | The call fails before waiting on no URLs, on an engine that cannot be created and on more URLs than the queue holds, in this order and in no other case; otherwise the engine holds one numbered request per URL, in order. |
| `Service.NoDrainUnlessCancelled` | pkg/crawler/engine.go:107-140 | If the caller's context is never cancelled, `Wait` never takes its drain branch and only its own cancellation occurs. |
| `Service.AtMostOneResultEach` | pkg/crawler/service_impl.go:29-81 | Under any interleaving and any cancellation the results are a sub-multiset of the submitted URLs. |
| `Service.ExactlyOneResultEach` | pkg/crawler/service_impl.go:29-81 | Without cancellation, when `Wait` has returned the results are exactly the multiset of submitted URLs. |
| `Service.ProductiveStepsCount` | pkg/crawler/engine.go:219-233 | Every step of a worker or of `Wait`, except looking at the counter again, strictly lowers the effort left. |
| `Service.CrawlNeverStuck` | pkg/crawler/service_impl.go:70-81 | The engine by itself, with `processRequest` taken to return: until `Wait` has returned, some productive step is possible in every reachable state. |
| `Crawling.StepInv` | pkg/crawler/engine.go:237-287 | With `Acquire` and `Release` inside the workers, every step keeps the invariants of the engine and of the semaphores and what each worker and its thread know of each other: callbacks fire once an acquire has failed or while the permits are held, release follows, `Done` comes last. |
| `Crawling.EngineRun` | pkg/crawler/engine.go:237-287 | Leaving out the steps of the concurrency manager from a run of the whole gives a run of the engine, so the engine's theorems hold of the whole. |
| `Crawling.RequestsAtMostLimit` | pkg/crawler/engine.go:237-287 | In every state of every crawl, at most GlobalMaxConcurrency workers are inside a request to one domain, and unless per-domain limits are disabled at most PerDomainMaxConcurrency. |
| `Crawling.SuccessOnlyInside` | pkg/crawler/engine.go:240-282 | A response is reported only by a worker that is inside a request to that response's domain. |
| `Crawling.AcquireFailsOnlyCancelled` | pkg/crawler/engine.go:240-244 | As long as nothing is cancelled, no worker's acquire has failed. |
| `Crawling.ProductiveStepsCount` | pkg/crawler/engine.go:219-287 | Every step of a worker, of its acquire and release, and of `Wait` (except looking at the counter again) uses up effort. |
| `Crawling.BusyCanMove` | pkg/crawler/engine.go:237-245 | Whenever a worker is busy some worker can move: one that is blocked in `Acquire` is blocked by one that is not. |
| `Crawling.CrawlNeverStuck` | pkg/crawler/service_impl.go:70-81 | With the semaphores in the loop, until `Wait` has returned some productive step is possible, for any limits of at least one and any assignment of domains. |
| `Crawling.CrawlIsBounded` | pkg/crawler/service_impl.go:70-81 | No run for n URLs has more than 50n + 240 productive steps, however they are interleaved. |
| `Crawling.CrawlReturns` | pkg/crawler/service_impl.go:29-81 | A crawl in which no productive step is left has returned with every permit back; its results are a sub-multiset of the submitted URLs, and exactly those if the context was not cancelled from outside. |
| `PriorityQueue.RootIsMinimum` | pkg/frontier/queue.go:12-17 | The root of a heap-ordered slice is a minimum, by (priority, discovery time), of all its entries. |
| `PriorityQueue.Queue.Up` | pkg/frontier/queue.go:12-27 | Sift-up from the one misplaced position restores heap order and permutes the entries. |
| `PriorityQueue.Queue.Down` | pkg/frontier/queue.go:12-22 | Sift-down over the first n entries restores their heap order, permutes the slice and leaves the rest untouched. |
| `PriorityQueue.Queue.Push` | pkg/frontier/memory.go:107-109 | The heap order is kept and the multiset of entries grows by exactly the pushed one. |
| `PriorityQueue.Queue.Pop` | pkg/frontier/queue.go:29-36 | It returns a minimum of the old multiset, removes exactly that entry and keeps the heap order. |
| `PriorityQueue.Queue.DrainSorted` | pkg/frontier/memory.go:123-139 | Taking until the queue is empty yields a sorted permutation of what it held. |
| `PriorityQueue.SortedMeans` | pkg/frontier/queue.go:12-17 | Sorted means: lower priority values first, and for equal ones the earlier discovery. |
| `PriorityQueue.Perform` | pkg/frontier/memory.go:107-139 | One operation on the heap is one operation on the multiset: an addition, the removal of a minimum, or nothing exactly if nothing is queued. |
| `PriorityQueue.Replay` | pkg/frontier/memory.go:107-139 | Every sequence of additions and takes on the heap refines the same sequence on the multiset. |
| `PriorityQueue.NothingLost` | pkg/frontier/memory.go:107-139 | Whatever was queued or added is what was taken or is still queued. |
| `Frontier.StepInv` | pkg/frontier/memory.go:78-166 | Every atomic section of `Add`, `Next` and `Close` keeps the place of every URL, the size equation and the wake-up condition. |
| `Frontier.AcceptedAndDeliveredOnce` | pkg/frontier/memory.go:78-150 | In every interleaving each canonical URL is accepted, queued and delivered at most once; the seen URLs are exactly those being pushed, queued, in a consumer's hands or delivered. |
| `Frontier.OnlyAdmissible` | pkg/frontier/memory.go:78-105 | In every reachable state, a URL that is marked, queued, in a consumer's hands, accepted or delivered is not empty and passes the filter. |
| `Frontier.EntersOnlyOpen` | pkg/frontier/memory.go:78-97 | Over every step: an `Add` gets past its first checks only while the frontier is open and only for a URL that is not empty and passes the filter. |
| `Frontier.GivesUpOnlySeen` | pkg/frontier/dedup.go:35-52 | Over every step: past its first checks an `Add` gives up exactly for a URL that is marked already. |
| `Frontier.PassesOnlyOpen` | pkg/frontier/memory.go:124-128 | Over every step: a `Next` gets past its closed check exactly if the frontier is open, and otherwise returns. |
| `Frontier.BlockedLeaves` | pkg/frontier/memory.go:141-149 | Over every step: a blocked `Next` goes on only by taking the token, and otherwise returns. |
| `Frontier.ClosedStaysClosed` | pkg/frontier/memory.go:123-166 | After `Close`, calls that had not yet got past their closed check add nothing and deliver nothing, in any continuation. |
| `Frontier.AddLeads` | pkg/frontier/memory.go:78-119 | From every state, an unseen admissible URL added to an open frontier with nobody else moving is accepted, queued, counted and announced. |
| `Frontier.NextLeads` | pkg/frontier/memory.go:123-150 | From every state, a `Next` on an open frontier with something queued and nobody else moving delivers a queued URL. |
| `Frontier.ExactAtQuiescence` | pkg/frontier/memory.go:78-155 | With no `Add` running and no consumer holding an entry, accepted = queued + delivered as multisets and `size` is the length of the heap. |
| `Frontier.SizeDrift` | pkg/frontier/memory.go:107-139 | Always, `size` = heap length - adders that have pushed but not counted + consumers that have popped but not discounted. |
| `Frontier.NoGlobalLostWakeup` | pkg/frontier/memory.go:107-150 | If something is queued and every consumer is blocked, a token is in the channel or some `Add` is between its push and its send, for any number of producers and consumers. |
| `Frontier.StrandingRun` | pkg/frontier/memory.go:107-150 | With at least one producer and at least two consumers, a run that leaves a consumer blocked although a URL is queued and nothing under way will wake it. |
| `Frontier.StrandedIffSeveralConsumers` | pkg/frontier/memory.go:121-150 | For any number of producers and consumers: no reachable state strands a consumer if and only if there is at most one consumer or no producer. |
| `Frontier.LeftBlockedRun` | pkg/frontier/memory.go:157-166 | With two or more consumers, a run in which `Close` has returned and a consumer stays blocked with nothing under way to wake it. |
| `Frontier.CloseWakesAllIff` | pkg/frontier/memory.go:157-166 | For any number of producers and consumers: no reachable state leaves a consumer blocked after a completed `Close` if and only if there is at most one consumer. |
| `Frontier.Deduplicator.MarkSeen` | pkg/frontier/dedup.go:35-52 | Whatever others insert between the read section and the write section, it answers true exactly if this call put the URL in. |
| `Politeness.DelayTable.EnforceCrawlDelay` | pkg/frontier/memory.go:170-196 | The stored time and the wait are those of `Enforce`, and the call is due at least the delay after the domain's previous check. |
| `Politeness.StepInv` | pkg/frontier/memory.go:170-196 | Ticks, checks and timers keep the timed invariant: a visit is due at least the delay after every earlier check of its domain, and a consumer's visits do not overlap. |
| `Politeness.RateBound` | pkg/frontier/memory.go:123-196 | In any half-open window as long as the delay, k consumers release at most k + 1 entries of one domain. |
| `Politeness.EveryOtherGap` | pkg/frontier/memory.go:170-196 | A lone consumer leaves at least the delay between a release and the next but one of the same domain. |
| `Politeness.SingleConsumerSpan` | pkg/frontier/memory.go:123-196 | n releases of a domain by a lone consumer span at least floor((n-1)/2) delays. |
| `Politeness.RunExact` | pkg/frontier/memory.go:170-196 | In every run the table holds exactly the time of each domain's last check, and every visit is due exactly when that time and its own check say. |
| `Politeness.ConsecutiveGapIff` | pkg/frontier/memory.go:170-196 | In every run, for any number of consumers: two consecutive visits to a domain are due at least the delay apart if and only if the earlier one did not have to sleep or the later one checks the delay after the earlier one was due; and with timers that fire on time, exactly then are they released the delay apart. |
| `Politeness.ConsecutiveGapCounterexample` | pkg/frontier/memory.go:170-196 | For every positive delay and any positive number of consumers, a run in which one consumer's three visits to a domain are released at 0, at the delay, and at the delay again. |
| `Politeness.AlwaysPoliteIff` | pkg/frontier/memory.go:22-25 | The promised minimum delay between releases of one domain is kept by every run if and only if there is no delay or no consumer. |
| `Sorting.SortedUnique` | pkg/frontier/canonical.go:43-48 | A multiset has exactly one sorted arrangement under a total order. |
| `Sorting.SortComplete` | pkg/frontier/canonical.go:43-48 | Two sequences sort to the same sequence if and only if they have the same elements with the same multiplicities. |
| `QueryCodec.UnescapeEscape` | pkg/frontier/canonical.go:53-55 | Unescaping what `QueryEscape` wrote gives back the bytes, for all byte strings. |
| `QueryCodec.DecodesIffSpells` | pkg/frontier/canonical.go:37-38 | The decoder is exact: it gives the bytes for a text if and only if the text spells them, each byte raw, as `+` if it is a space, or as `%` and two hexadecimal digits of either case. |
| `QueryCodec.EscapeIsNormal` | pkg/frontier/canonical.go:53-55 | Of all spellings, the printer writes the normal one of section 6.2.2 of RFC 3986: no unreserved byte escaped, digits in upper case. |
| `QueryCodec.UnreservedAre` | pkg/frontier/canonical.go:53-55 | The unreserved bytes are the letters, digits and four marks of section 2.3 of RFC 3986. |
| `QueryCodec.PartGivesIff` | pkg/frontier/canonical.go:37-38 | A part gives a pair if and only if it is not empty, has no semicolon, and its two sides around the first `=` spell the key and the value; otherwise it gives nothing. |
| `QueryCodec.DecodeWritten` | pkg/frontier/canonical.go:37-38 | However its pairs are spelled, a query decodes to exactly these pairs, in order. |
| `QueryCodec.DecodePrint` | pkg/frontier/canonical.go:36-59 | Parsing a printed query gives back exactly the printed pairs, in order, for every sequence of pairs. |
| `Canonical.CompleteInvariant` | pkg/frontier/canonical.go:36-59 | Two queries canonicalise to the same text if and only if they decode to the same multiset of (key, value) pairs. |
| `Canonical.SpellingDoesNotMatter` | pkg/frontier/canonical.go:36-59 | However a query is spelled (case of hexadecimal digits, needless escapes, order of pairs), its canonical text is the normal spelling of its sorted pairs; two spelled queries have one canonical text if and only if they spell the same multiset of pairs. |
| `Canonical.CanonicalRoundTrip` | pkg/frontier/canonical.go:36-59 | Parsing the canonical query gives back the multiset of pairs, and canonicalising again changes nothing. |
| `Canonical.FlattenIsSort` | pkg/frontier/canonical.go:36-59 | Grouping by key, sorting keys and sorting each key's values visits the pairs in their one sorted order. |
| `Canonical.SortedKeys` | pkg/frontier/canonical.go:38-43 | From any iteration order of the map, the keys come out complete, distinct and sorted. |
| `Canonical.PrintValues` | pkg/frontier/canonical.go:47-56 | The inner loop appends the values of one key with separators exactly where they belong. |
| `Canonical.PrintSorted` | pkg/frontier/canonical.go:36-59 | The nested loops with their separator rule print the sorted pairs of the query. |
| `Canonical.Canonicalize` | pkg/frontier/canonical.go:16-67 | Overwriting the fields in turn yields the canonical URL: scheme and host in lower case, default port and fragment dropped, trailing slashes trimmed, query sorted. |
| `Canonical.CanonicalizeIdempotent` | pkg/frontier/canonical.go:16-67 | Canonicalising twice is canonicalising once. |
| `Canonical.SameCanonicalIff` | pkg/frontier/canonical.go:16-67 | Two URLs share a canonical form if and only if schemes and hosts are equal up to the case of letters, ports are equal or both implied by the scheme, paths are equal up to trailing slashes with the root path equal only to itself, and the queries decode to the same multiset of pairs. |
| `Canonical.CanonicalIff` | pkg/frontier/canonical.go:16-67 | The canonical form of a URL is the one normal URL equivalent to it: a URL is the result if and only if it is normal (no capitals in scheme and host, no implied port, no trailing slash but the root's, no fragment, a query that prints sorted pairs) and equivalent to the input. |
| `Canonical.RootIsNotDoubleSlash` | pkg/frontier/canonical.go:61-64 | For every URL, the path `/` and the path `//` have different canonical forms, and `//` has that of the empty path. |
| `CacheControl.FirstMaxAgeIs` | pkg/middleware/cache.go:216-229 | The scan finds the first directive with a positive `max-age`, and none exactly if there is none. |
| `CacheControl.TtlOverriddenIff` | pkg/middleware/cache.go:216-229 | The header overrides the default TTL if and only if some directive carries a positive `max-age`. |
| `CacheControl.MaxAgeZeroKeepsDefault` | pkg/middleware/cache.go:216-229 | `max-age=0` yields the default TTL. |
| `CacheControl.NoStoreIff` | pkg/middleware/cache.go:201-213 | A header forbids storing if and only if one of its comma-separated parts is `no-store`, in any case of letters and between any blanks. |
| `CacheControl.TtlReads` | pkg/middleware/cache.go:216-229 | For every number of seconds n, the header `max-age=n` gives a TTL of n seconds if n is positive and fits, and otherwise the default. |
| `CacheControl.MaxAgeSigned` | pkg/middleware/cache.go:219-226 | A plus sign before the number is accepted and a minus sign never gives a positive number. |
| `CacheControl.MaxAgeOnlyDigits` | pkg/middleware/cache.go:219-226 | A `max-age` with any other character than digits after the sign is ignored. |
| `Cache.AgreeSizes` | pkg/middleware/cache.go:168-191 | Agreement of map and list (same elements, each under its own key, distinct keys) makes their sizes equal, which the eviction loop's guard relies on. |
| `Cache.LruCache.Evict` | pkg/middleware/cache.go:185-191 | Map and list lose exactly the element and still agree; nil changes nothing. |
| `Cache.LruCache.MoveToFront` | pkg/middleware/cache.go:135-152 | The element comes first, the others keep their order, and map and list agree. |
| `Cache.LruCache.Fetch` | pkg/middleware/cache.go:135-152 | Refines `Get` on the recency list: a miss changes nothing, an expired entry goes, a hit moves to the front. |
| `Cache.LruCache.EvictLoop` | pkg/middleware/cache.go:168-171 | The loop terminates because each round shrinks the map, and leaves the most recent entries that leave room for one more. |
| `Cache.LruCache.EvictForRoom` | pkg/middleware/cache.go:168-171 | The contents become exactly what fits beside one more entry. |
| `Cache.LruCache.Refresh` | pkg/middleware/cache.go:159-166 | A present key is updated in place and moved to the front; the other entries are untouched. |
| `Cache.LruCache.PushFront` | pkg/middleware/cache.go:173-180 | A new element goes to the front of the list and into the map, which still agree. |
| `Cache.LruCache.Insert` | pkg/middleware/cache.go:168-180 | An absent key is put in front of what fits beside it. |
| `Cache.LruCache.Store` | pkg/middleware/cache.go:155-181 | Refines `Set` on the recency list, for present and absent keys. |
| `CacheRuns.ProcessRequest` | pkg/middleware/cache.go:104-132 | The whole request on the map and the list refines `Serve` on the recency list, including methods that bypass the cache, errors, nil responses and responses that may not be stored. |
| `CacheRuns.HitIsLatestPut` | pkg/middleware/cache.go:135-181 | In any interleaving of `get` and `set`, a hit is the response of the latest `set` for that key, not after its expiry. |
| `CacheRuns.HitIff` | pkg/middleware/cache.go:135-181 | In any interleaving a `get` is a hit if and only if the key is held and the latest `set` for it has not expired, and then answers with that response. |
| `CacheRuns.HeldAfter` | pkg/middleware/cache.go:135-181 | A `set` holds its own key and, with room or for a key already held, every other; a `get` takes away at most the key it is for. |
| `CacheRuns.HitsAgree` | pkg/middleware/cache.go:135-181 | If everything stored under a key is the same response, every hit on it returns that response, in any interleaving. |
| `CacheRuns.BoundedAndDistinct` | pkg/middleware/cache.go:135-191 | In any interleaving the cache stays within its capacity with distinct keys. |
| `CacheRuns.RunIsOps` | pkg/middleware/cache.go:104-132 | A sequential run of requests is one of those interleavings. |
| `CacheRuns.HitWasAnswered` | pkg/middleware/cache.go:104-181 | Every hit is a response that `next` gave earlier in the run to a request with that key that was itself not a hit, with an allowed status and no `no-store`, no later than store time plus TTL. |
| `CacheRuns.KeyInjective` | pkg/middleware/cache.go:104-115 | The cache key determines method and URL when methods have no blank. |
| `CacheRuns.Transparent` | pkg/middleware/cache.go:104-132 | For a `next` that depends only on method and URL, every caller on every run gets what `next` would have answered. |
| `CacheRuns.RecentDistinct` | pkg/middleware/cache.go:135-181 | The recency list of a history holds each requested key exactly once and no other. |
| `CacheRuns.RecentOrdered` | pkg/middleware/cache.go:135-181 | It is ordered by last use, latest first. |
| `CacheRuns.HoldsMostRecent` | pkg/middleware/cache.go:104-191 | On cacheable requests with cacheable answers and no expiry, the cache holds exactly the capacity most recently requested distinct keys, in recency order. |
| `CacheRuns.HitIffRecent` | pkg/middleware/cache.go:104-181 | In such a run a request is answered without `next` if and only if its key is among the capacity most recently requested ones, and a miss answers exactly what `next` does. |
| `CacheRuns.SmallerIsPrefix` | pkg/middleware/cache.go:104-191 | On the same requests a smaller cache's keys are a prefix of a larger one's. |
| `Consumer.HandleFailure` | pkg/distributed/consumer.go:200-206 | The in-place increment and the shifted backoff agree with the decision function: retry below the limit with backoff base * 2^count, dead letter otherwise. |
| `Consumer.StepConserves` | pkg/distributed/consumer.go:114-263 | No step, with failing writes or after a cancellation included, makes or destroys a copy of a task. |
| `Consumer.ExactlyOnePlace` | pkg/distributed/consumer.go:114-263 | In every reachable state each published task is in exactly one place: topic, reader, channel, worker, succeeded, dead-lettered or lost. |
| `Consumer.EndIffHistory` | pkg/distributed/consumer.go:186-263 | In every run with its events: a task has succeeded if and only if the last call of its handler returned no error, and is in the dead-letter queue if and only if all MaxRetries+1 calls failed and the dead letter was written; the handler fails on it no more often. |
| `Consumer.HandlerAnswers` | pkg/distributed/consumer.go:186-263 | A return without an error adds its task to the succeeded ones and to nothing else; a return with an error never does, and below the limit it starts a backoff. |
| `Consumer.ChannelIsFifo` | pkg/distributed/consumer.go:153-172 | Every step appends the reader's message to the channel, or takes the oldest one for a worker, or leaves the channel alone. |
| `Consumer.WorkerLeaves` | pkg/distributed/consumer.go:172-175 | A worker returns only after a cancellation, giving up the task it just received, or once the channel is closed and empty. |
| `Consumer.ReaderStaysDone` | pkg/distributed/consumer.go:131-160 | Once the reader has returned it fetches and sends nothing more. |
| `Consumer.FinalAccounts` | pkg/distributed/consumer.go:167-263 | A dead-lettered task was handled exactly MaxRetries+1 times and waited exactly RetryBackoff*(2^MaxRetries-1); a successful one at most MaxRetries+1 times; with a working broker nothing is lost before a cancellation. |
| `Consumer.CancellationLosesFew` | pkg/distributed/consumer.go:153-175 | With a working broker, a cancellation loses at most two tasks per worker and leaves at most two per worker in the channel, however many tasks there are. |
| `Consumer.LosingRun` | pkg/distributed/consumer.go:153-239 | Whenever there is a task and a fault is possible, a run that gives up a committed task. |
| `Consumer.NothingLostIff` | pkg/distributed/consumer.go:153-263 | For every configuration: no run ever gives up a committed task if and only if there are no tasks, or neither can a broker write fail nor the context be cancelled. |
| `Consumer.BoundsReached` | pkg/distributed/consumer.go:153-219 | As soon as there are four tasks per worker, a run with a working broker and one cancellation that gives up exactly two tasks per worker and leaves exactly two per worker in the channel, with every worker returned. |
| `Consumer.BudgetFalls` | pkg/distributed/consumer.go:167-263 | The sum of MaxRetries+1-RetryCount over live tasks never rises and falls at every handler completion. |
| `Consumer.WorkFalls` | pkg/distributed/consumer.go:114-263 | Every step of the protocol strictly lowers a natural-number measure. |
| `Consumer.RunsAreFinite` | pkg/distributed/consumer.go:114-263 | n published tasks and w workers allow at most 6n(MaxRetries+1) + 4n + w + 2 steps. |
| `Consumer.EveryTaskEnds` | pkg/distributed/consumer.go:114-263 | When nothing but a cancellation can happen any more: not cancelled, each task ended in exactly one of succeeded, dead-lettered or lost to a failed write, and with a working broker in one of the first two; cancelled, the reader and all workers have returned and each task is in exactly one of succeeded, dead-lettered, lost, the closed channel, or, not committed, the topic or the reader. |
| `Jobs.JobManager.Create` | pkg/distributed/job.go:130-144 | Refines the table update: an existing id is refused, otherwise a fresh job is added. |
| `Jobs.JobManager.Start` | pkg/distributed/job.go:147-182 | Refines the transition with its three error cases in order; seeds are on the log exactly if the state changed. |
| `Jobs.JobManager.ControlTransition` | pkg/distributed/job.go:230-280 | The same for pause, resume and stop, with the completion time set on terminal targets only. |
| `Jobs.StateIsReplay` | pkg/distributed/job.go:55-72 | After any run with arbitrary publish failures, each job's state is the replay of its published messages, each a transition the table allows; CompletedAt is set iff Cancelled, StartedAt iff the seeds went out; nothing is published for unknown jobs. |
| `Jobs.FailureChangesNothing` | pkg/distributed/job.go:130-182 | A call that fails for whatever reason changes neither jobs nor log. |
| `Jobs.CancelledForever` | pkg/distributed/job.go:55-72 | A cancelled job never changes again and nothing more is published for it. |
| `Jobs.ResumeAcceptedIff` | pkg/distributed/job.go:189-192 | In reachable states a resume succeeds if and only if its publish does and the job is Paused or Created. |
| `Jobs.PauseAcceptedIff` | pkg/distributed/job.go:184-187 | In reachable states a pause succeeds if and only if its publish does and the job is running, and then it is paused. |
| `Jobs.StopAcceptedIff` | pkg/distributed/job.go:194-197 | A stop succeeds if and only if its publish does and the job is not cancelled, and then it is cancelled with its completion time. |
| `Jobs.StartAcceptedIff` | pkg/distributed/job.go:147-182 | A start succeeds if and only if its publish does and the job is created or paused, and then it is running with its start time and its seeds are on the log. |
| `Jobs.ErrorsMean` | pkg/distributed/job.go:130-182 | Which error a call gives in a reachable state: the id is taken, there is no such job, the job is in no state for the call, or the publish failed. |
| `Jobs.RunningWithoutSeeds` | pkg/distributed/job.go:189-192 | Create then resume leaves a running job whose seeds were never published. |
| `Jobs.SeededIffNotResumedUnstarted` | pkg/distributed/job.go:55-72 | For every run: a running or paused job has had its seeds published throughout the run if and only if no resume of it was accepted while it was in state Created. |
| `Jobs.SeedsOnceIff` | pkg/distributed/job.go:147-182 | For every run: a job's seeds go out at most once if and only if it is never started while paused after an earlier start. |
| `Reconciler.Controller.Reconcile` | pkg/operator/reconciler.go:54-184 | The table (spec, phase, worker counts, times and conditions), the reply and the error are those of the transition function for suspended specs and every phase; other jobs are untouched. |
| `Reconciler.Controller.Mark` | pkg/operator/reconciler.go:195-225 | A known job becomes completed or failed, with its completion time, no desired workers and, if failed, the reason as a condition; an unknown one is ignored. |
| `Reconciler.SeedsPublishedOnce` | pkg/operator/reconciler.go:54-131 | Over any run each job's seeds are published at most once and never while it is pending, and the unknown-phase error is unreachable. |
| `Reconciler.StatusIsHistory` | pkg/operator/reconciler.go:54-225 | Over any run a job's status is true to its history: a start time and exactly one start condition if and only if its seeds were published, none while pending, always one while running or paused, and a completion time if and only if it is terminal. |
| `Reconciler.TerminalForever` | pkg/operator/reconciler.go:54-98 | A completed or failed job stays so and nothing more is emitted for it. |
| `Reconciler.RoundSettles` | pkg/operator/reconciler.go:101-184 | One round takes a non-terminal job to Running and a running job to the wanted number of workers; no action is emitted if and only if it was there already. |
| `Reconciler.Converges` | pkg/operator/reconciler.go:54-184 | With a fixed unsuspended spec and its actions carried out, every non-terminal job has actual = desired after two rounds, and the third and every later reconcile emits nothing. |
| `Reconciler.ConvergesToSpec` | pkg/operator/reconciler.go:54-184 | The number it settles at is the specification's if positive and 3 otherwise, and desired, active and actual workers agree. |
| `Reconciler.SuspendSettles` | pkg/operator/reconciler.go:75-84 | Suspending a running job pauses it and removes all workers in one round with one action; another job keeps its phase; nothing more is emitted while the suspension lasts. |
| `Reconciler.SuspendAndResume` | pkg/operator/reconciler.go:54-184 | Suspending a running job and lifting the suspension brings it back to the wanted number of workers in two rounds, without publishing its seeds again. |
| `Reconciler.ScalingNames` | pkg/operator/reconciler.go:119-164 | Scaling actions name the current number and the specification's, in the right direction. |
| `Reconciler.RequeuesIff` | pkg/operator/reconciler.go:54-184 | In reachable states a job is requeued if and only if it is neither suspended nor terminal, after 10 s when started, 30 s when running, at once when resumed. |
| `Chain.MiddlewareChain.Use` | pkg/middleware/chain.go:59-61 | The middleware is appended, and the new chain is the old one around the middleware around the handler: it is innermost. |
| `Chain.MiddlewareChain.Execute` | pkg/middleware/chain.go:70-87 | The chain that the loop builds from the inside out is the right fold of the middlewares over the handler. |
| `Chain.FoldJoins` | pkg/middleware/chain.go:70-87 | Executing A ++ B around h is executing A around the execution of B around h. |
| `Chain.CountingIsFaithful` | pkg/middleware/chain.go:70-87 | An execution that counts the calls of the terminal handler, with a count that no layer can read or write, gives the replies of the chain. |
| `Chain.CallsBounded` | pkg/middleware/chain.go:70-87 | One request reaches the terminal handler at most as often as the product of the layers' limits, where a layer calls `next` at most its limit of times, depending in any way on its request and the replies so far. |
| `Chain.StageIsLayer` | pkg/middleware/chain.go:26-34 | A middleware that short-circuits or calls `next` once is a layer of limit one, and the retry middleware is a layer of limit MaxRetries+1: for every `next` the layer replies what the code replies. |
| `Chain.ProcessRequest` | pkg/middleware/retry.go:67-89 | The loop over attempts computes the recursive specification of retrying, including cancellation during a pause. |
| `Chain.RetryReturnsFirstAcceptable` | pkg/middleware/retry.go:67-89 | Every attempt that is followed by another failed or had a retryable status; not interrupted, the last result is returned, and it is one that is not tried again unless all MaxRetries+1 attempts were made; interrupted, the last response with an error. |
| `Chain.PerformBounded` | pkg/middleware/retry.go:67-89 | A layer reaches the terminal handler at most its limit times as often as one call of `next` does. |
| `Chain.RetryLayersBound` | pkg/middleware/retry.go:67-89 | A chain of retry middlewares and of middlewares that call `next` at most once reaches its terminal handler at most as often as the product of MaxRetries+1 over the retry layers, wherever they stand, in an execution with the chain's own replies. |
| `Chain.BoundIsReached` | pkg/middleware/retry.go:67-89 | Over a handler that always fails, or answers with statuses that every layer lists as retryable, retry layers that are not cut short reach it exactly that often. |
| `Chain.DelayRange` | pkg/middleware/retry.go:93-118 | In whole nanoseconds: a positive Retry-After is obeyed whatever the attempt, even beyond the maximum; without one, delays are never negative and never exceed the maximum, for every positive multiplier, and are positive for a multiplier of at least one. |
| `Chain.BackoffIsGeometric` | pkg/middleware/retry.go:103-109 | The first delay is the initial backoff, capped by the maximum, and every backoff is the multiplier times the one before. |
| `Chain.DelaysGrowIff` | pkg/middleware/retry.go:67-118 | For every positive initial and maximal backoff, multiplier and number of retries: the delays of one request, in whole nanoseconds, never shrink if and only if the multiplier is at least one, there is only one retry, or the backoff of the last retry is not below the maximum. |
| `Proxy.PickWeighted` | pkg/middleware/proxy.go:139-161 | The two loops compute the selection of a draw over the healthy pool, and nothing exactly if the pool has no weight. |
| `Proxy.FallbackUnreachable` | pkg/middleware/proxy.go:154-161 | The return after the loop is unreachable for every draw below the total. |
| `Proxy.DrawsAreWeights` | pkg/middleware/proxy.go:139-161 | Over any pool of distinct proxies, exactly as many draws select a proxy as its weight. |
| `Proxy.ExactlyProportional` | pkg/middleware/proxy.go:139-161 | Of all possible draws, a healthy proxy is selected by exactly as many as its weight, or one if its weight is not positive, and an unhealthy one by none. |
| `Proxy.PickFrom` | pkg/middleware/proxy.go:111-136 | The cyclic scan finds the first healthy proxy from its base on, and none exactly if none is healthy. |
| `Proxy.Offset` | pkg/middleware/proxy.go:114-121 | Going round from any base meets every position exactly once. |
| `Proxy.Rotation.PickRoundRobin` | pkg/middleware/proxy.go:125-136 | The counter moves on by one, wrapping at 2^64, found or not; the pick is the first proxy from the old counter's base with fewer than MaxFailures consecutive failures, and none exactly if there is no such proxy. |
| `Proxy.Rotation.RecordResult` | pkg/middleware/proxy.go:174-181 | One more consecutive failure, or back to zero; the counters of other proxies stay. |
| `Proxy.RoundRobinFair` | pkg/middleware/proxy.go:125-134 | While all n proxies are healthy and the counter does not wrap, any n consecutive picks visit each proxy exactly once. |
| `Proxy.WrapRepeatsAProxy` | pkg/middleware/proxy.go:125-134 | With three proxies the picks on both sides of the wrap start at the same proxy. |
| `Proxy.WrapFairIff` | pkg/middleware/proxy.go:125-134 | n consecutive picks that straddle the wrap give every proxy its turn if and only if n divides 2^64. |
| `Proxy.MissedProxy` | pkg/middleware/proxy.go:125-134 | Otherwise a proxy that gets no turn, for every such window. |
| `Proxy.FailuresBounded` | pkg/middleware/proxy.go:93-108 | With m requests at once, no failure counter ever exceeds MaxFailures-1+m. |
| `Proxy.BoundReached` | pkg/middleware/proxy.go:93-108 | For every limit and every m there is a run with m requests in which a counter reaches MaxFailures-1+m. |
| `Proxy.CounterIsConsecutive` | pkg/middleware/proxy.go:172-181 | In every run a proxy's counter is the number of its consecutive failures up to now. |
| `Score.ScoreExact` | pkg/frontier/redis.go:184-186 | For priorities 0 to 899 and times below 10^13 ms the score is below 2^53 and survives the conversion to float64 exactly. |
| `Score.ScoreOrder` | pkg/frontier/redis.go:184-186 | In that range the order of scores is exactly the lexicographic order of (priority, milliseconds). |
| `Score.FirstCollision` | pkg/frontier/redis.go:184-186 | At priority 900 two different times get the same score. |
| `Score.OrderKeptIff` | pkg/frontier/redis.go:184-186 | The order is kept for all priorities from 0 to a top value if and only if that is at most 899. |
| `Score.SameMinimum` | pkg/frontier/queue.go:12-17 | For every set of entries in range, what Redis may pop is exactly what the heap may pop, with times cut to milliseconds. |

## Left out

- Browser pool, HTTP client and transport, gRPC server, Python SDK, command line, Postgres and file storage: calls into libraries.
- Rate limiting and robots.txt: the hard parts are in libraries that are not part of this model.
- Extractors, HTML parsing, log sanitising and the regular expressions of the URL filter; `Frontier` takes the filter as an arbitrary predicate.
- Plugins, configuration defaults other than those named, authentication and user agents: tables of values without behaviour over time.
- Redis network behaviour, JSON encoding, Kafka rebalancing, redelivery and malformed messages; a broker write succeeds or fails as a whole.
- Shared mutable objects: the interleaved protocols of `engine.go`, `concurrency.go`, `memory.go`, `consumer.go` and the proxies' health counters are step machines over values; aliasing between goroutines is not captured beyond the atomic sections. Their sequential parts are classes.
- `container/list` is a sequence of element objects and the Go heap slice a sequence field; pointers inside the list are not modelled. A caller that changes a response it got from the cache is not modelled either.
- Engine.Crawler.AddURL: request options are not modelled.
- Service.CrawlNeverStuck: has the engine alone; Crawling.CrawlNeverStuck has the semaphores as well.
- Callbacks' contents, responses and statistics of the engine: a processed request is a success or a failure, and the HTTP call inside `processRequest` is taken to return.
- Panics of `sync.WaitGroup` on reuse while a `Wait` returns; only the counter's sign is modelled.
- A `Wait` that is called more than once, and an engine that is started again.
- `PagesQueued`, the long-lived instances of the crawl service, and other derived statistics.
- Canonical.Canonicalize: works on URL components; parsing and printing of the whole URL by `net/url`, IPv6 literals, user information and encoded paths are not modelled, and lower case is that of ASCII.
- `extractDomain` and its scans; domains are given.
- Politeness.RateBound: assumes a monotone clock; a consumer whose context is cancelled while it sleeps is released early and is not modelled.
- CacheControl.FirstMaxAgeIs: `max-age` seconds times a second is not reduced to 64 bits; case is that of ASCII, and blanks are those up to U+00FF.
- Chain.DelaysGrowIff: real arithmetic instead of float64, without jitter; the parsing of Retry-After is not modelled and the header is any non-negative delay.
- Chain.CallsBounded: middlewares that call `next` from several goroutines at once are not modelled.
- Chain.ProcessRequest: a `next` that returns neither a response nor an error is not modelled.
- Consumer.FinalAccounts: the backoff is an unbounded integer, so it states the claim where the shifted duration does not overflow.
- Jobs.StateIsReplay: jobs are values that start fresh; a caller that keeps the pointer it handed in and changes the job is not modelled.
- Politeness.ConsecutiveGapIff: the part about releases is for timers that fire exactly when due; the part about due times holds of every run.
