# Routing and resilience core of the Hedera REST client, in Dafny

The client sends one logical request to one of several mirror-node providers. It picks a
provider that has room, retries and follows redirects, fails over, limits its own rate, caches
answers per network, and checks identifiers, filters and page limits before anything is sent.
This project models that core and proves what it is for.

| file | what it models |
|---|---|
| `Routing`, `RoutingRuns`, `RoutingOrder` | provider choice: overflow probes, failover, the passes a request makes and their order |
| `Transport`, `TransportRuns`, `TransportResults` | one pass: redirects inside a logical attempt, attempts inside a retry loop |
| `Limiter`, `LimiterRuns`, `LimiterAdmission` | admission of overflow work to a rate-limited bucket, as a machine of JavaScript turns |
| `MemoryCache`, `MemoryCacheRuns` | the in-memory TTL cache with its persistent sweep cursor |
| `RedisMutations`, `RedisMutationRuns`, `RedisAnswers` | the per-key queue that makes SET and its expiry act as one command |
| `RedisKeys` | literal prefixes as glob patterns, prefix-scoped clearing |
| `CacheKey` | cache keys that keep networks apart, on UTF-16 code units |
| `Links`, `Limits` | pagination links moved between providers, page limits resolved again for each provider |
| `AccountAlias`, `EntityId`, `TimestampBounds`, `TimestampText` | validators and the sets they accept |
| `TokenAllowances` | a query built call by call against the same query mapped at once |
| `Bits`, `Numbers`, `Text`, `Comparators`, `Wrappers` | bit operations, integer bounds, decimal text, `op:value` filters, sum types |

Code that changes fields is modelled by classes and loops whose contracts equate the new state
with a step function; the theorems are about those functions, over whole runs. The network, the
limiter library, Redis, clocks and the URL parser are oracles: arbitrary functions or arbitrary
events. Clocks do not run backwards where a theorem speaks of time.

## Where the code and its promises differ

* A limiter flush whose `schedule()` throws synchronously on a later member of the admitted
  prefix rejects members that are already submitted. `LimiterRuns.OneFateUnlessLateThrow` gives
  the exact condition.
* The inclusive timestamp bounds describe the solutions exactly when no `ne` filter names an
  instant inside them (`TimestampBounds.BoundsAreExactIff`); with `ne`, "effective equality" can
  hold of filters that nothing satisfies (`NeDefeatsEquality`).
* The topic window counts instants and both ends are inclusive, where the documentation speaks of a
  span of at most the maximum, zero for a single instant. The two agree on a range if and only if its
  ends are not just the maximum apart (`TimestampBounds.DocumentedWindowIff`): `gte:0` with
  `lte:604800` is refused under the default week (`FullWeekExample`), and a maximum of zero refuses
  every single instant (`InstantExceedsZero`).
* `equalTo(v)` writes the bare value. It records an equality if and only if `v` has no colon or starts
  with `eq:` (`TokenAllowances.CompareCallRecords`); `equalTo("gt:0.0.5")` is a lower bound
  (`EqualToExample`).
* A pagination path survives extraction and re-anchoring, except that a provider whose base ends at
  the API root drops an empty path segment right after the root (`Links.RoundTrip` has the exact
  condition, `Links.EmptySegmentExample` an instance).

## Model

| member | source | states |
|---|---|---|
| Routing.PreemptiveGet | src/core/provider.ts:909-935 | Probes run in rotation order, the first one the limiter lets through is the only pass that gets past its limiter; if all are refused the request queues on the requested provider; a single provider is never probed. |
| Routing.FailoverGet | src/core/provider.ts:1047-1093 | The probing phase and the queued phase together execute exactly the failover plan for the untried providers, pass by pass, and return its outcome. |
| Routing.QueueBlocked | src/core/provider.ts:1082-1092 | The providers without capacity are queued in the order they were found, until one pass succeeds or fails for good. |
| Routing.GetWithTarget | src/core/provider.ts:990-1008 | A whole request is its selected pass followed, when failover is on and applies, by the failover plan; the executed passes are those of the log that were not refused. |
| Routing.ScheduleOnTarget | src/core/provider.ts:826-845 | One pass is one transport request with the provider's dispatcher and policy; it reports a lack of capacity exactly when its limiter is asked by the first fetch of an overflow pass and has no room. |
| Routing.BlockedExactly | src/core/provider.ts:801-815 | A pass counts as blocked exactly when the provider has a limiter, the pass probes, the limiter is full, and neither an abort nor a limiter error comes first. |
| Routing.RotationDistinct | src/core/provider.ts:728-732 | The rotation lists every provider that defines the network, each once, the requested one first. |
| RoutingOrder.RotationOrder | src/core/provider.ts:728-732 | The rotation rises strictly by distance after the requested provider in the configuration, counting on from its end to its beginning; if the requested one does not define the network, by place in the configuration. |
| RoutingOrder.InitialPassIs | src/core/provider.ts:909-935 | With overflow switching and several providers the selected pass probes the first one in rotation whose limiter does not refuse it, or queues on the requested one when all do; otherwise it queues there at once. |
| RoutingOrder.SettingsAreOwn | src/core/provider.ts:801-815 | A provider runs under its own settings for the network. |
| RoutingOrder.PassesAsConfigured | src/core/provider.ts:826-845 | Every executed pass first sends the provider's own request; the selected one retries by that provider's policy, every other one makes a single attempt. |
| RoutingOrder.DispatchedAsAnswered | src/core/provider.ts:801-815 | Each dispatch is answered as the network, the limiter or the caller's abort has it, and refused for capacity only on the first dispatch of an overflow pass. |
| Routing.QueueNeverBlocked | src/core/provider.ts:801-815 | A pass that queues cannot end for lack of capacity: only the first dispatch of an overflow pass probes. |
| Routing.InitialNeverBlocked | src/core/provider.ts:909-935 | The pass selected at first is never one that was refused. |
| Routing.ProbeStep | src/core/provider.ts:1058-1076 | One probe of failover is put aside, or ends the walk, or leaves the rest of the plan to do. |
| RoutingRuns.FirstFitIsFirst | src/core/provider.ts:924-934 | The selected provider is the first in rotation whose probe has room; if there is none, the requested one is queued on. |
| RoutingRuns.PlanIsStablePartition | src/core/provider.ts:1056-1092 | The plan is a permutation of the untried providers: those with immediate capacity in rotation order, then the blocked ones in the same order; none of its passes is refused or retries. |
| RoutingOrder.PlanIs | src/core/provider.ts:1056-1092 | The plan pass by pass: the probes not refused, in the order of the untried providers and under the numbers at which they are made, then a queued pass for each refused one, in the same order. |
| RoutingOrder.FailoverVisitsByPlace | src/core/provider.ts:1037-1093 | After a failure the plan is that of all other providers of the network, by distance after the failed one in the configuration. |
| RoutingRuns.WalkCutsAtFirstEnd | src/core/provider.ts:1058-1092 | What is executed is a prefix of the plan that ends at its first success or final failure and returns that outcome; otherwise it is the whole plan and the last error, the original one for an empty plan. |
| RoutingRuns.FailoverExecutesPlan | src/core/provider.ts:1047-1093 | Both facts for failover from any failed provider and any set of attempted ones; with no alternate the original error is thrown. |
| RoutingRuns.RouteIs | src/core/provider.ts:990-1008 | Every request is its initial pass and, exactly when failover applies, the plan cut at its first end. |
| RoutingRuns.EachProviderOnce | src/core/provider.ts:909-1008 | With overflow and failover in any setting, no provider executes two passes, all executed ones define the requested network, and the returned target is one of them on that network. |
| RoutingRuns.CapacityNeverSurfaces | src/core/provider.ts:909-1008 | The caller never sees the limiter's capacity error. |
| RoutingRuns.AllProvidersTried | src/core/provider.ts:1037-1093 | When every executed pass fails over, every provider of the network has executed and the last error is thrown. |
| RoutingRuns.BlockedStartsNothing | src/core/provider.ts:1078-1081 | A pass that ends for lack of capacity has sent nothing. |
| RoutingRuns.OnlyExecutedPassesFetch | src/core/provider.ts:1078-1081 | Of all passes made, probes included, only the executed ones can have sent anything. |
| RoutingRuns.OneSendingPassPerProvider | src/core/provider.ts:909-1093 | Over the whole log of a request a provider has at most one pass that can have sent anything, whatever the settings. |
| RoutingRuns.RequestFetchBound | src/core/provider.ts:1047-1093 | The executed passes of a routed request dispatch at most 21 fetches for each attempt of the selected provider's policy and 21 for each further provider. |
| Transport.PerformAttempt | src/core/http.ts:520-675 | The redirect loop computes the logical attempt of its specification, dispatch by dispatch, and terminates. |
| Transport.Request | src/core/http.ts:677-719 | The retry loop computes the request of its specification and terminates for every server, dispatcher and caller. |
| Transport.JudgeAttempt | src/core/http.ts:681-716 | After an attempt the loop ends with the verdict's result or waits, and an abort during the wait ends it. |
| Transport.NormalizeRetry | src/core/http.ts:161-187 | A policy is refused exactly when it is enabled and its attempt count or a delay is out of range; an accepted one allows at least one attempt, a disabled one exactly one and no retried status. |
| TransportRuns.MethodAfterRedirect | src/core/http.ts:313-316 | A redirect keeps the method or makes it GET, and keeps it exactly for GET, 307 and 308, and 301 and 302 of methods other than POST (section 15.4 of RFC 9110). |
| TransportRuns.AttemptIsChain | src/core/http.ts:520-675 | A logical attempt is a redirect chain: at most 21 fetches, URLs pairwise distinct, each fetch the policy-checked redirect of the one before, and the outcome the one the last fetch calls for. |
| TransportRuns.ChainIsUnique | src/core/http.ts:520-675 | Nothing else is such a chain. |
| TransportRuns.GetSticks | src/core/http.ts:667-673 | Once a redirect has made the method GET it stays GET and carries no body (section 15.4 of RFC 9110). |
| TransportRuns.BodyIsTheCallers | src/core/http.ts:512-513 | A fetch carries no body or the caller's exact body, the latter only under the caller's own method. |
| TransportRuns.RetriedExactly | src/core/http.ts:681-713 | An attempt is followed by another exactly after a listed status or a network failure that is no abort, while attempts are left and nobody aborts the wait. |
| TransportRuns.RequestIsRequest | src/core/http.ts:677-719 | A request is a run of consecutive attempts, all but the last retryable, ended by the last one's verdict. |
| TransportResults.RequestEndsAs | src/core/http.ts:677-719 | Every attempt but the last calls for another one and no wait before it is aborted; a last status of 200 to 299 is returned, any other is thrown, a failure is thrown with the URL of the last fetch and the number of fetches, and an abort, in a fetch or in the last wait, as such. |
| TransportResults.ReplyIs | src/core/http.ts:538-619 | A reply is a redirect exactly with a location and a status of 301, 302, 303, 307 or 308 and no signal; a failure keeps its two signals apart; a broken body fails a success only; any other status is reported. |
| TransportResults.PolicyAsGiven | src/core/http.ts:148-187 | An enabled policy is the one given, with the documented default for each field left out; a disabled one retries nothing. |
| TransportRuns.FetchBound | src/core/http.ts:520-719 | At most maxAttempts attempts and 21 * maxAttempts dispatched fetches, and at least one attempt. |
| TransportRuns.SameOrigin | src/core/http.ts:640-647 | Every URL fetched is the caller's or a destination of the same origin. |
| TransportRuns.EscapeIsLastDispatch | src/core/http.ts:535-538 | An error that escapes an attempt is what the dispatcher answered to its last dispatch. |
| TransportRuns.CapacityFailureStartsNothing | src/core/http.ts:535-538 | If only the first dispatch can lack capacity, a request that ends for that reason has sent nothing. |
| TransportRuns.RefusedAtOnce | src/core/http.ts:535-538 | A rejection of the first dispatch is what the whole request ends with, whatever the policy. |
| Limiter.LimiterEntry.SubmitTask | src/core/limiter.ts:79-93 | A submission registers a fresh id; a synchronous throw takes it back and counts both changes. |
| Limiter.LimiterEntry.Settled | src/core/limiter.ts:70-72 | Registration or rejection of a job removes its id once, and only then moves the version. |
| Limiter.LimiterEntry.QueueOverflowFlush | src/core/limiter.ts:146-150 | Queues one flush unless one is already scheduled. |
| Limiter.LimiterEntry.ScheduleOverflow | src/core/limiter.ts:181-188 | Enqueues one admission and sees to a flush. |
| Limiter.LimiterEntry.FlushLoopHead | src/core/limiter.ts:104-142 | A pass takes the whole queue with a snapshot of the pending set, or refuses it in the same turn when a minimum spacing leaves nothing to await, or the flush finishes; the queue is empty afterwards. |
| Limiter.LimiterEntry.AvailablePrefix | src/core/limiter.ts:110-123 | What counts as available is a prefix: the longest run of positions whose check holds against an unmoved snapshot. |
| Limiter.LimiterEntry.AdmitBatch | src/core/limiter.ts:125-136 | The prefix is submitted in order under consecutive ids, the rest refused; a throw settles the batch as the catch block does. |
| Limiter.LimiterEntry.FlushDecide | src/core/limiter.ts:109-142 | One pass of the flush after its awaits, and the next loop test, as one step. |
| LimiterRuns.Reachable | src/core/limiter.ts:79-188 | Every run keeps the bucket's invariant: version bookkeeping, no lost wakeup, honest snapshots, nobody lost or decided twice. |
| LimiterRuns.NoLostWakeup | src/core/limiter.ts:102-150 | In every reachable state at most one flush lives, the flag says whether it does, and a non-empty queue implies the flag. |
| LimiterRuns.DecidedOnceInOrder | src/core/limiter.ts:102-144 | Every admission is queued, in hand or decided, exactly once, and decisions come in arrival order. |
| LimiterRuns.FlushDrains | src/core/limiter.ts:102-144 | From every reachable state two passes of the flush decide everything that waits, whatever the limiter answers. |
| LimiterRuns.VersionCountsPending | src/core/limiter.ts:70-93 | The version is always twice the ids issued minus the pending registrations. |
| LimiterRuns.VersionPinsPending | src/core/limiter.ts:119-121 | Between two states of a run an unchanged version means an unchanged pending set. |
| LimiterRuns.AdmittedExactly | src/core/limiter.ts:109-123 | When check(w) means that w fits the capacity, a flush admits nothing after a moved snapshot, at most one task under a minimum spacing, and else as many as fit beside the pending ones. |
| LimiterAdmission.BurstIsDecided | src/core/limiter.ts:102-136 | From every reachable state with a waiting flush, an undisturbed pass starts the first tasks that fit beside the pending ones, one under a minimum spacing and only with nothing pending, under consecutive ids; it refuses the rest, fails a batch whose check throws, and settles a throwing submission as the catch block does. |
| LimiterAdmission.WaitingBurstIsDecided | src/core/limiter.ts:102-136 | The same for every bucket and every run that leads to a waiting flush. |
| LimiterAdmission.PendingMoves | src/core/limiter.ts:70-93 | What each event does to the pending set: submitted tasks enter under fresh ids, a settled one leaves, and nothing else changes it. |
| LimiterRuns.FlushWithinCapacity | src/core/limiter.ts:104-133 | Pending plus admitted stays within the capacity seen; under a minimum spacing at most one is admitted, and only with nothing pending. |
| LimiterRuns.FlushAdmitsPrefix | src/core/limiter.ts:125-133 | Each member of the batch gets the next fresh id or a refusal according to its place in the prefix. |
| LimiterRuns.FlushCapacitySafety | src/core/limiter.ts:102-133 | The capacity bound in every reachable state. |
| LimiterRuns.OneFateUnlessLateThrow | src/core/limiter.ts:125-136 | Each admission is submitted or rejected but not both, if and only if schedule() does not throw on a later member of the admitted prefix. |
| LimiterRuns.LateThrowExample | src/core/limiter.ts:132-136 | A run in which the first of two admitted tasks is submitted and rejected. |
| RedisMutations.FriendlyClient.WithFriendlyMutation | src/core/cache-redis.ts:441-448 | A call waits for the key's current tail and becomes the tail. |
| RedisMutations.FriendlyClient.RunMutation | src/core/cache-redis.ts:306-309 | A mutation is its first command and, for a set with expiry that was stored, its expiry command. |
| RedisMutations.FriendlyClient.Finish | src/core/cache-redis.ts:450-456 | Cleanup drops the tail only if it is still the call's own. |
| RedisMutationRuns.EveryInterleavingIsSerial | src/core/cache-redis.ts:300-310 | For every interleaving of calls on any keys, with failing commands and lapsing leases, each key holds what running its calls one at a time in call order leaves. |
| RedisMutationRuns.SuccessIsAtomic | src/core/cache-redis.ts:300-310 | A call that reports success took effect as one atomic set with lease, plain set or delete. |
| RedisAnswers.CallsAreThoseMade | src/core/cache-redis.ts:441-448 | The calls of a run are the ones made, on their keys, with their operations and in that order. |
| RedisAnswers.CallsStandAsAnswered | src/core/cache-redis.ts:300-310 | Each call stands where the answers to its own commands put it, and has had the effect they say. |
| RedisAnswers.SucceedsIffAllGood | src/core/cache-redis.ts:441-457 | A settled call reports success exactly when every answer to its commands was good; it has had two if it is a set with an expiry whose first one was, and else one. |
| RedisMutationRuns.LeaseIsOwn | src/core/cache-redis.ts:300-309 | A stored value carries no lease but its own call's. |
| RedisMutationRuns.ExpiryHitsOwnValue | src/core/cache-redis.ts:306-309 | The expiry command lands on the value its own call has just written. |
| RedisMutationRuns.MutualExclusion | src/core/cache-redis.ts:441-457 | At most one call on a key is between its first command and settling. |
| RedisMutationRuns.NothingBlocks | src/core/cache-redis.ts:435-448 | Whatever became of earlier calls, the first unsettled call on a key can take its next step. |
| RedisMutationRuns.TailsAreReleased | src/core/cache-redis.ts:450-456 | Once the calls on a key have settled and cleaned up, the tail map has no entry for it. |
| RedisMutationRuns.Reachable | src/core/cache-redis.ts:441-457 | The queue's invariant holds in every reachable state. |
| RedisKeys.PatternIsPrefix | src/core/cache-redis.ts:408-411 | A glob matcher accepts a key for the escaped prefix and a star exactly when the key starts with the literal prefix, for all strings. |
| RedisKeys.UnescapedIsTooBroad | src/core/cache-redis.ts:368-369 | Without escaping a prefix can select keys outside itself. |
| RedisKeys.KeysOfPage | src/core/cache-redis.ts:393-397 | Of one page the distinct keys with the prefix are kept, in order of first appearance. |
| RedisKeys.MatchingKeepsOrder | src/core/cache-redis.ts:393-397 | The keys kept stand in the order of their first appearance. |
| RedisKeys.DeleteAll | src/core/cache-redis.ts:399-404 | The keys of a page are sent in order in commands of 1 to 1000 keys, all of them or up to the first command that fails. |
| RedisKeys.Clear | src/core/cache-redis.ts:365-406 | The DEL commands carry, page by page, the matching keys in chunks of 1 to 1000: all of them at the end, those of the pages before a failing SCAN reply, or a prefix that ends with the failing DEL; without a prefix nothing is sent. |
| RedisKeys.ClearDeletesExactly | src/core/cache-redis.ts:390-404 | A key is deleted exactly when some page returned it and it starts with the prefix. |
| MemoryCache.MemoryCacheAdapter.SweepExpired | src/core/cache.ts:67-85 | One bounded sweep from the retained cursor, sixteen entries at most, over a live iterator. |
| MemoryCache.MemoryCacheAdapter.Get | src/core/cache.ts:97-105 | Returns a live record, drops an expired one. |
| MemoryCache.MemoryCacheAdapter.Set | src/core/cache.ts:118-127 | Rejects a bad TTL without a trace; otherwise sweeps, then writes or drops the key. |
| MemoryCache.MemoryCacheAdapter.Delete | src/core/cache.ts:137-139 | Removes the key's slot, if any, and nothing else. |
| MemoryCache.MemoryCacheAdapter.Clear | src/core/cache.ts:147-150 | Empties the map and forgets the cursor. |
| MemoryCacheRuns.DeadlineIs | src/core/cache-ttl.ts:4-26 | On real numbers: exactly the finite non-negative TTLs with a safe deadline are accepted, the deadline is rounded down to a millisecond, never before the present, and a zero TTL expires at once. |
| MemoryCacheRuns.StepAgrees | src/core/cache.ts:97-150 | Each operation keeps the cache and a timed map that never sweeps in agreement, and both give the same answer. |
| MemoryCacheRuns.PlacesAreKept | src/core/cache.ts:118-127 | Writing a key keeps its place in the map or takes the last one, removing it leaves its place empty, and no other entry moves. |
| MemoryCacheRuns.WritesLeaveTheirEntry | src/core/cache.ts:118-127 | A write whose deadline is not ahead leaves no entry for its key; any other leaves its own. |
| MemoryCacheRuns.SweepIsBounded | src/core/cache.ts:66-85 | A sweep takes out expired entries only, and at most sixteen. |
| MemoryCacheRuns.CacheRefinesTimedMap | src/core/cache.ts:59-151 | Every run of set, get, delete and clear answers as the timed map does, wherever the cursor stands. |
| MemoryCacheRuns.FreshCacheRefinesTimedMap | src/core/cache.ts:59-64 | In particular a new adapter is the empty timed map. |
| MemoryCacheRuns.WriteShrinks | src/core/cache.ts:118-127 | Every write brings the sweep nearer to an expired entry, also when it appends one. |
| MemoryCacheRuns.ExpiredEntryReclaimed | src/core/cache.ts:67-85 | In a store of n entries an untouched expired entry is removed within floor(n/15) + floor(n/16) + 2 accepted writes of other keys, whatever is interleaved. |
| CacheKey.QuoteReadsBack | src/core/network-cache.ts:35-40 | JSON quoting of any UTF-16 string, lone surrogates included, is undone by reading up to the closing quote, whatever follows. |
| CacheKey.UnitsAreWritten | src/core/network-cache.ts:35-40 | How each code unit is written: itself, a short escape, or four hexadecimal digits for other controls and lone surrogates (section 7 of RFC 8259). |
| CacheKey.PhysicalKeyIsInjective | src/core/network-cache.ts:35-40 | Two pairs of network and logical key share a physical key only if they are equal. |
| CacheKey.KeyOfPlainName | src/core/network-cache.ts:35-40 | For a name of plain characters the key is the prefix, the quoted name and the logical key with colons between them. |
| CacheKey.QuotedSurvives | src/core/network-cache.ts:36-38 | The quoted name has no lone surrogate, so a UTF-8 backend replaces nothing in it. |
| CacheKey.NetworksStayApart | src/core/network-cache.ts:36-38 | Different networks' keys stay different even when a backend replaces lone surrogates. |
| CacheKey.StepKeepsApart | src/core/network-cache.ts:71-103 | A call for one network leaves what the adapter holds for any other as it was. |
| CacheKey.ReadsWhatWasWritten | src/core/network-cache.ts:71-103 | What a network wrote under a key it reads back until the deadline, and not from then on. |
| CacheKey.ReadIsMiss | src/core/network-cache.ts:71-94 | A read is a hit exactly when the cache is on, nothing fails and a record with a deadline still ahead is stored under the key; it changes nothing. |
| CacheKey.WriteStores | src/core/network-cache.ts:95-103 | A write stores one record under the key, unless the cache is off, the TTL is refused or the adapter fails; then it stores nothing, and only the TTL is reported. |
| CacheKey.NetworksDoNotInterfere | src/core/network-cache.ts:55-105 | In every run of all networks' calls on one adapter, expiry and failures included, each network gets the answers it would get alone. |
| Links.LastApiRoot | src/core/paging.ts:96-103 | Scanning left to right and past each match finds the last API root, or reports that there is none. |
| Links.ResolveNextLink | src/core/paging.ts:85-116 | A link is refused for the first of: no URL, not HTTP, no API root, a limit that does not resolve; otherwise its path from the last root on is resolved against the provider, and its limit for that provider and endpoint. |
| Links.ResolveIsIdempotent | src/core/url.ts:53-79 | Resolving an already resolved path changes nothing, for every base and every path. |
| Links.ResolveKeepsPrefix | src/core/url.ts:43-52 | A resolved path never leaves the provider's own prefix. |
| Links.ResolvesBelow | src/core/url.ts:60-62 | A path at or below the base stays as it is. |
| Links.ResolvesAtRoot | src/core/url.ts:64-69 | A base at the API root gets what follows the root of the endpoint behind it, so that the root stands there once. |
| Links.ResolvesBehind | src/core/url.ts:63-70 | Any other base gets the whole endpoint behind it, with one slash between them. |
| Links.WithoutTrailingSlashes | src/core/url.ts:6-8 | Stripping a URL path gives a base path: empty, or starting and not ending with a slash. |
| Links.RoundTrip | src/core/url.ts:43-70 | Extraction undoes resolution for a path at the API root, if and only if that is its last root and the base does not drop an empty segment after it. |
| Links.EmptySegmentExample | src/core/url.ts:64-69 | The base /m/api/v1 resolves /api/v1//x to /m/api/v1/x, from which the path is not recovered. |
| Links.HopsKeepThePath | src/core/paging.ts:79-83 | Over any sequence of providers the logical path taken from any link stays as it is, up to one tidying of an empty segment. |
| Limits.RequestedLimits.PrepareQueryLimit | src/core/limits.ts:130-139 | Remembers the caller's limit, writes the resolved number, keeps what it has written before a failure, and touches no other query. |
| Limits.RequestedLimits.ResolvedQueryLimit | src/core/limits.ts:142-146 | Resolves the remembered limit, or the query's own. |
| Limits.ResolvesToNearest | src/core/limits.ts:94-119 | A limit resolves exactly under a usable policy and when it asks for a safe integer, and then to the one permitted page size nearest to what it asks for. |
| Limits.ResolveLimitValue | src/core/limits.ts:94-119 | Whatever resolves lies in 1..maxLimit of the endpoint's policy, and there is a number exactly when a limit was given; which one it is, ResolvesToNearest says. |
| Limits.PolicyInForce | src/core/limits.ts:29-35 | Each field of a policy is the endpoint's override if there is one, and else the target's. |
| Limits.SafeIntegersAre | src/core/limits.ts:99-112 | A usable number is an integer of magnitude below two to the 53rd. |
| Limits.OnlyNodesHaveAnEndpoint | src/core/limits.ts:18-27 | Exactly the paths that end in /api/v1/network/nodes, or that and a slash, have an endpoint policy. |
| Limits.PreparationWrites | src/core/limits.ts:130-139 | After any preparations, one more writes the number its provider allows into the query and remembers the limit asked for; a failing one leaves the limit that was there; without a limit nothing happens. |
| Limits.ClampIsNearest | src/core/limits.ts:116-118 | Clamping gives the one permitted page size nearest to the requested one. |
| Limits.LimitDependsOnIntentAlone | src/core/limits.ts:121-146 | After any preparations for any providers, failed ones included, the limit for a target is the caller's own limit resolved for that target. |
| Limits.ClampingDoesNotCompose | src/core/limits.ts:126-129 | Resolving the resolved number instead agrees exactly when the first provider did not cut below the second. |
| AccountAlias.EncodingIsAccepted | src/core/utils.ts:110-122 | The unpadded base32 form of every non-empty byte sequence is accepted and decodes to it (sections 3.5 and 6 of RFC 4648). |
| AccountAlias.AcceptedIsEncoding | src/core/utils.ts:110-122 | Every accepted string is the encoding of what it decodes to. |
| AccountAlias.AcceptsExactlyEncodings | src/core/utils.ts:110-122 | The validator accepts exactly the encodings of non-empty byte sequences. |
| AccountAlias.MaskTestIsPadTest | src/core/utils.ts:116-121 | The mask looks at exactly the pad bits of the last group. |
| AccountAlias.AlphabetIsTheStandards | src/core/utils.ts:119-120 | Symbols are the places in the alphabet of section 6 of RFC 4648. |
| AccountAlias.StandardVectors | src/core/utils.ts:110-122 | The encoding gives test vectors of section 10 of RFC 4648, one for each length of a group. |
| Bits.AndLowMask | src/core/utils.ts:121-121 | Masking with k ones is the remainder by two to the k. |
| Bits.OrDisjoint | src/core/utils.ts:785-785 | Or-ing fields that do not overlap adds them. |
| EntityId.BoundedValueIs | src/core/utils.ts:247-255 | The sign, leading-zero and length rules accept exactly the parts whose number is in 0..maximum, and return it. |
| EntityId.AcceptsExactlyPackable | src/core/utils.ts:240-269 | Accepted are exactly the decimal IDs whose triple fits the packed form, and under `gt` not the largest. |
| EntityId.PartsInPlace | src/core/utils.ts:256-258 | An ID is read as num, realm.num or shard.realm.num, a missing part as zero. |
| EntityId.NoOtherForm | src/core/utils.ts:242-245 | There is no other decimal ID. |
| EntityId.SignsRead | src/core/utils.ts:248-253 | A part denotes its digits' number, negated after a minus sign. |
| Text.NatOfConcat | src/core/utils.ts:253-253 | Digits are positional: those in front count for a power of ten more. |
| EntityId.PackingIsPositional | src/core/utils.ts:780-786 | Shift-and-or equals shard * 2^54 + realm * 2^38 + num and lies in 0..2^63-1. |
| EntityId.PackingKeepsOrder | src/core/utils.ts:780-786 | Packing is injective on triples and orders IDs as their triples. |
| EntityId.GtNeverOverflows | src/core/utils.ts:265-267 | `gt` is refused exactly where the inclusive bound plus one would overflow a signed 64-bit integer. |
| TimestampBounds.GetInclusiveTimestampBounds | src/core/utils.ts:1438-1462 | Succeeds exactly on valid filters, and yields the greatest lower and least upper candidate. |
| TimestampBounds.NumberIsSeconds | src/core/utils.ts:1430-1435 | A number in range is read as that many seconds, exactly. |
| TimestampText.ReadsWritten | src/core/utils.ts:1430-1449 | An operator and a timestamp of 1 to 10 digits of seconds and 0 to 9 of fraction are read as that operator and exactly that nanosecond, or refused beyond 64 bits. |
| TimestampText.ReadsBare | src/core/utils.ts:1430-1449 | Without an operator the same timestamp is an equality. |
| TimestampText.ReadsNothingElse | src/core/utils.ts:1036-1084 | Every accepted filter is one of these two forms, or a number of whole seconds in range. |
| TimestampText.FilterMeans | src/core/utils.ts:1448-1458 | What a written filter lets through, by its operator and nanosecond, and the inclusive bounds it alone gives. |
| TimestampText.ComparesAsInstants | src/core/utils.ts:1430-1435 | Written timestamps compare as the nanoseconds they name. |
| TimestampBounds.SolutionsAre | src/core/utils.ts:1437-1462 | The instants that satisfy every filter are those within the bounds that no `ne` filter names. |
| TimestampBounds.BoundsAreExact | src/core/utils.ts:1437-1462 | Without `ne` the bounds are the solutions. |
| TimestampBounds.BoundsAreExactIff | src/core/utils.ts:1437-1462 | In general they are exactly when no `ne` filter names an instant within them. |
| TimestampBounds.SolutionCount | src/core/utils.ts:1509-1512 | With both bounds the number of solutions is the inclusive range less the instants removed by `ne`. |
| TimestampBounds.MissingBoundIsInfinite | src/core/utils.ts:1506-1508 | With a bound missing the solutions are not finitely many. |
| TimestampBounds.HasEffectiveTimestampEquality | src/core/utils.ts:1465-1469 | Without `ne` it holds exactly when one instant satisfies all filters; in general, when the bounds coincide. |
| TimestampBounds.EqualityExactly | src/core/utils.ts:1464-1469 | With `ne` the answer agrees with the solutions exactly when the removed instants are not the coinciding one, and not all but one. |
| TimestampBounds.NeDefeatsEquality | src/core/utils.ts:1464-1469 | An equality and an inequality on one instant have coinciding bounds and no solution. |
| TimestampBounds.EnforceTopicTimestampWindow | src/core/utils.ts:1497-1519 | Which failure is reported in which case; accepted exactly when the solutions, counted with the instants `ne` removes, are finitely many, at least one and at most maxWindowSec * 10^9, so without `ne` the solutions alone. |
| TimestampBounds.WindowIsSolutionCount | src/core/utils.ts:1506-1518 | Without `ne` the verdict on the bounds is a verdict on the number of solutions. |
| TimestampBounds.WindowCountsRemoved | src/core/utils.ts:1506-1518 | For any filters it is one on the solutions together with the instants that `ne` removes from the range. |
| TimestampBounds.WindowAgreesIff | src/core/utils.ts:1506-1518 | With `ne` the verdict is the one the solutions call for exactly when the filters remove less than a range that fits, and from one that does not all of it or too little. |
| TimestampBounds.DocumentedWindowIff | src/core/utils.ts:1471-1518 | The verdict is the documented one, a span of at most the maximum, exactly on ranges whose ends are not just the maximum apart. |
| TimestampBounds.FullWindowIsRefused | src/core/utils.ts:1509-1517 | Every range that spans just the maximum is refused as too large. |
| TimestampBounds.FullWeekExample | src/core/utils.ts:1509-1517 | A full week under the default maximum of a week is refused. |
| TimestampBounds.InstantExceedsZero | src/core/utils.ts:1509-1517 | A single instant is refused under a maximum of zero. |
| Comparators.ParsesPrefixed | src/core/utils.ts:364-389 | An operator written in front of a value is parsed back, with the value unchanged. |
| Comparators.ParsedText | src/core/utils.ts:364-389 | Whatever parses is a bare value without a colon, or a permitted operator written in front of a value. |
| Comparators.OperatorNames | src/core/utils.ts:325-329 | The six operators are the ones named eq, ne, gt, gte, lt and lte. |
| Text.SplitIsJoin | src/core/utils.ts:242-242 | Splitting at a character loses nothing and leaves the character in no part. |
| TokenAllowances.ValidateRepeatedComparatorFilters | src/core/utils.ts:660-688 | Reports the first failing check of a list of filters, in the order the checks are made. |
| TokenAllowances.AcceptedShapes | src/core/utils.ts:660-688 | Accepted lists are single filters, or one lower and one upper bound in either order. |
| TokenAllowances.AcceptanceIsPrefixClosed | src/core/utils.ts:660-688 | Every non-empty prefix of an accepted list is accepted. |
| TokenAllowances.FilterTexts | src/core/utils.ts:360-389 | A filter is a valid value without a colon, or one of the five operators other than ne in front of a valid value. |
| TokenAllowances.EqualityText | src/core/utils.ts:364-389 | An accepted filter is an equality exactly when its text has no colon or starts with `eq:`. |
| TokenAllowances.CompareCallRecords | src/dsl/accounts.ts:77-88 | A comparator call records its operator, for equalTo exactly when the value's text has no colon or starts with `eq:`. |
| TokenAllowances.EqualToRecordsBound | src/dsl/accounts.ts:610-620 | On a fresh builder equalTo accepts every valid bound written as text and records the bound. |
| TokenAllowances.EqualToExample | src/dsl/accounts.ts:610-620 | equalTo("gt:0.0.5") is recorded as a lower bound. |
| TokenAllowances.CouplingRule | src/dsl/accounts.ts:674-687 | The rule read off the text is the rule on operators: token upper bounds need spender `lte` or equality, token lower bounds `gte` or equality. |
| TokenAllowances.AccountTokenAllowancesDSL.IdOrAliasOrEvmAddress | src/dsl/accounts.ts:589-593 | Sets a valid path and refuses any other without a change. |
| TokenAllowances.AccountTokenAllowancesDSL.SpenderId | src/dsl/accounts.ts:597-609 | Appends the filters if the longer list is accepted, and changes nothing otherwise. |
| TokenAllowances.AccountTokenAllowancesDSL.SpenderIdCompare | src/dsl/accounts.ts:610-620 | The same for one operator and value. |
| TokenAllowances.AccountTokenAllowancesDSL.TokenId | src/dsl/accounts.ts:628-640 | The same for token filters. |
| TokenAllowances.AccountTokenAllowancesDSL.TokenIdCompare | src/dsl/accounts.ts:641-651 | The same for one operator and value on tokens. |
| TokenAllowances.AccountTokenAllowancesDSL.Build | src/dsl/accounts.ts:668-695 | Checks the path, the companion and the coupling, and leaves the builder as it is. |
| TokenAllowances.CallsExtendTheirList | src/dsl/accounts.ts:588-652 | Spender calls extend the spender filters, token calls the token filters, by the values given or the comparator written out; a call is refused exactly when the longer list is not accepted or has nothing to add, and then changes nothing. |
| TokenAllowances.BuildCarriesTheLists | src/dsl/accounts.ts:668-695 | A build succeeds exactly with a path, with spender filters wherever there are token filters, and with coupled lists, and carries each list under its own parameter. |
| TokenAllowances.MapperCarriesTheLists | src/resources/accounts/mapper.ts:262-318 | The mapper accepts exactly queries of that kind with accepted lists, and carries the lists unchanged. |
| TokenAllowances.BuildAgreesWithMapper | src/resources/accounts/mapper.ts:262-318 | After any calls, refused ones included, the build is accepted exactly when the mapper accepts the accumulated lists, with the same path and the same occurrences of both parameters. |
| TokenAllowances.IncrementalIffBatch | src/dsl/accounts.ts:598-651 | One call at a time is accepted throughout exactly when each call is well formed and the gathered lists are accepted at once. |
| TokenAllowances.BuilderIffMapper | src/dsl/accounts.ts:581-696 | The calls and the build succeed exactly when each call is well formed and the mapper accepts what they gather. |

## Left out

- POST routing: it repeats the GET methods with a body; the transport model covers POST requests, redirects and bodies.
- Routing.GetWithTarget: the URL of a pass is given for every provider; building it can throw, for a limit that does not resolve, and the error then passes both routing loops.
- Headers, response bodies, JSON parsing, fetch, timers and abort plumbing: a fetch is an oracle outcome.
- Back-off delays, jitter and Retry-After dates: a wait either ends or is aborted.
- An abort raised between a redirect reply and the checks on its destination.
- Bottleneck's scheduling: only check(), the scheduled event, rejections and a throwing schedule() are seen.
- Redis itself: commands apply at once or not at all, and not after their reply; SCAN returns arbitrary pages or throws.
- Raw-command Redis clients, which send one atomic SET PX, and the two command paths of delete.
- RedisKeys.PatternIsPrefix: the matcher works on characters, Redis on bytes, so a character of several bytes is one step here.
- MemoryCache.MemoryCacheAdapter.Clear: the cleared entry list is modelled as empty, which is seen only by an iterator that clear() drops.
- MemoryCacheRuns.DeadlineIs: a TTL and its product with 1000 are real numbers, while the code rounds the product to a double, so a deadline can be one millisecond later than the model's (2.3 seconds give 2300 where the double nearest to 2.3 lies below it).
- Cached values are not copied in the model, and a failing copy is one of the failures a call may have.
- CacheKey.NetworksStayApart: UTF-8 encoding is modelled by its one lossy effect, the replacement of lone surrogates.
- The IndexedDB cache, logging and configuration key checks.
- Links.ResolveNextLink: URL parsing, percent encoding, dot segments and the rest of the query are not modelled; a link is given by its scheme, its normalized path and the value of its limit parameter.
- Limits: null is treated as any other value that is no limit.
- TokenAllowances: the grammars of account paths and single identifiers are parameters, the former taken to refuse the empty string as the client's does, and the limit and order of the query, which both forms pass through, are not part of it.
- The other resource builders and mappers, which repeat the same validators, and orderedBounds of entity ID ranges.
