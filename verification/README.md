# Verified models of the Go Wind Plugins algorithms

The repository is a library of plugins for brokers, configuration sources, storage and resilience.
Most of it adapts foreign clients; some of it carries algorithms of its own. This project models
those algorithms in Dafny and proves what they keep over every run:

- `Ring.dfy`, `Hystrix.dfy`, `Sres.dfy`: the ring of time buckets and the two circuit breakers on it;
- `Vegas.dfy`: the latency-driven circuit breaker;
- `RequestReply.dfy`: request/reply over publish/subscribe, for one caller and as a distributed protocol;
- `Cache.dfy`, `CacheAside.dfy`, `CacheAlone.dfy`: cache-aside loading, for one caller, under every
  interleaving, and the agreement of the two;
- `Apollo.dfy`, `ApolloMaps.dfy`: unflattening dotted keys, on values and in place on the heap;
- `Columns.dfy`, `Repository.dfy`: Cassandra row mapping, tenant injection and delete planning;
- `Retry.dfy`, `Batch.dfy`, `Selector.dfy`: the retry loop, the batch inserter and round robin;
- `Common.dfy`: optional values and facts about division.

Objects the source updates in place are classes. Each method's postcondition ties the object's new
fields to a specification function on plain values, and the theorems over runs are lemmas about those
functions. Clock readings, random draws and the results of external calls are parameters. `dafny
verify dfyconfig.toml` checks the whole project.

Where the code and its own comments disagree, the model follows the code:

- `Allow` of the Hystrix breaker sets the trial flag when it moves to half-open and then refuses on
  that very flag, so the trial that the comments promise is admitted only in an episode opened by
  `State()` (`Hystrix.TrialNeedsQuery`, `Hystrix.QueryOpensOneTrial`, `Hystrix.NoRecoveryByExecute`).
- `lastRotate` is not aligned to bucket boundaries, so the ring is not always the sliding window it is
  meant to be: an outcome can be counted arbitrarily long after its window (`Ring.StaleWithoutBound`),
  and one recorded a nanosecond ago can be wiped (`Ring.CurrentSlotWiped`). `Ring.SlidingWindowIff`
  says exactly when it is, `Ring.PositionCounts` what a bucket counts in any case, and
  `Hystrix.TripsOnWindow` and `Sres.AcceptanceOfWindow` what that means for the breakers.
- The comment on `WithK` of the SRE breaker calls a higher K more lenient; a higher K never accepts
  more (`Sres.HigherKIsStricter`).
- An open Vegas breaker heals only by samples it no longer lets through
  (`Vegas.Heals`, `Vegas.OpenIsAbsorbing`), and failures alone never open it (`Vegas.FailuresNeverOpen`).
- A request published on its own reply topic can come back as its own reply
  (`RequestReply.OwnTopicEchoes`), so the theorem on kept headers asks for two different topics.
- A call of `GetOrLoad` with a nil loader reports "absent" and stores an empty result that later
  callers with a loader are served (`CacheAside.NilCallerMisled`, `CacheAside.NilLoaderHides`), and a
  zero TTL, which Redis takes as no expiry, serves values of any age (`CacheAside.ZeroTTLServesForever`).
  Values have a bounded age if and only if the calls on their key pass loaders and either bypass the
  cache or have a positive TTL (`CacheAside.BoundedIff`).
- `resolve` does not depend on the order of the keys even when some are prefixes of others, because a
  covered key is dropped in either order (`Apollo.OrderIrrelevant`, `Apollo.ResolvedLeaves`).
- The backoff in the package example of `retry` leaves out the factor and therefore waits at most once
  (`Retry.ZeroFactorNeverWaits`); for a factor below 1 the early exit is not the documented formula
  (`Retry.FormulaHoldsIff`).
- A tenant id of 2^32 or more is truncated when it is stamped on a row and when a row is read by key,
  but not when rows are queried, although the comments call the two checks the same
  (`Repository.ChecksAgreeIff`, `Repository.CreatedIsVisibleIff`).
- Round robin promises an even spread; over the wrap of its 64-bit counter it keeps that promise if
  and only if the number of instances divides 2^64 (`Selector.AlwaysEvenIff`).

## Model

| member | source | states |
|---|---|---|
| `Ring.RotateInPlace` | circuitbreaker/hystrix/hystrix.go:290-312 | the clearing loop on the bucket array computes `Rotate` and the new `lastRotate`, for any clock reading |
| `Ring.RotateClearsExactly` | circuitbreaker/hystrix/hystrix.go:290-312 | the emptied positions are exactly those of the `steps` consecutive absolute slots ending at the current one; these live at pairwise different positions when `steps < n`; the ring is all zero when `steps >= n` |
| `Ring.SlotsEntered` | circuitbreaker/sres/sres.go:240-262 | slots entered since `lastRotate` number `steps` when aligned and `steps + 1` otherwise |
| `Ring.SweptWereEntered` | circuitbreaker/sres/sres.go:240-262 | every cleared slot was entered since `lastRotate`, and only the first entered slot can be missed |
| `Ring.SweepsAllEnteredIff` | circuitbreaker/hystrix/hystrix.go:290-308 | no entered slot is missed if and only if the rotation is aligned |
| `Ring.RecentSurvives` | circuitbreaker/hystrix/hystrix.go:290-308 | a slot no later than `lastRotate`'s and still among the last n keeps its counts |
| `Ring.ThinningConserves` | circuitbreaker/hystrix/hystrix.go:290-308 | totals held plus totals dropped by a rotation are the totals before |
| `Ring.TotalsOfUpdate` | circuitbreaker/sres/sres.go:231-238 | the summed totals change by exactly the change of one bucket |
| `Ring.WindowKeptIff` | circuitbreaker/hystrix/hystrix.go:290-312 | from a true sliding window one operation gives a true sliding window ending at its own slot, and exact totals, if and only if it is clean, a condition on the ring and the clock before the call |
| `Ring.SlidingWindowIff` | circuitbreaker/sres/sres.go:231-262 | over every run from a ready ring, new or reset, whose clock does not run backwards, the ring is a true sliding window at every call, and its totals are exact at every call, if and only if every operation is clean at its moment |
| `Ring.PositionCounts` | circuitbreaker/hystrix/hystrix.go:290-312 | in every run, whatever its clock does, a position counts exactly the outcomes recorded at slots that live there from the last operation that cleared it onwards |
| `Ring.WithinCounts` | circuitbreaker/sres/sres.go:231-238 | the window's totals are the number of outcomes and of failures recorded in its slots, each counted once |
| `Ring.StaleWithoutBound` | circuitbreaker/hystrix/hystrix.go:290-308 | for any number of turns there is a run with monotone time that still counts an outcome that many windows old |
| `Ring.UnrotatedRecordSweptIff` | circuitbreaker/hystrix/hystrix.go:290-308 | an outcome recorded without a rotation is wiped by the next rotation if and only if its slot was new and that rotation is aligned |
| `Ring.CurrentSlotWiped` | circuitbreaker/hystrix/hystrix.go:290-308 | an outcome can be wiped while its own slot is still the current one |
| `Hystrix.Breaker.constructor` | circuitbreaker/hystrix/hystrix.go:108-128 | a new breaker is closed with an empty ring |
| `Hystrix.Breaker.Allow` | circuitbreaker/hystrix/hystrix.go:149-179 | the decision and all fields after it, in every state |
| `Hystrix.Breaker.EvaluateLocked` | circuitbreaker/hystrix/hystrix.go:264-288 | the summing loop trips a closed breaker exactly on `Trips` of the bucket totals |
| `Hystrix.Breaker.Mark` | circuitbreaker/hystrix/hystrix.go:182-222 | recording a success or a failure: rotate, count, settle a trial or evaluate |
| `Hystrix.Breaker.State` | circuitbreaker/hystrix/hystrix.go:241-252 | the query moves an expired open breaker to half-open and reports the new state |
| `Hystrix.Breaker.Execute` | circuitbreaker/hystrix/hystrix.go:225-238 | an admitted call is marked by its own outcome, a refused one changes nothing further |
| `Hystrix.StepKeepsInv` | circuitbreaker/hystrix/hystrix.go:149-252 | every operation keeps the invariant of `ReachableInv` |
| `Hystrix.ReachableInv` | circuitbreaker/hystrix/hystrix.go:149-288 | in every reachable state a closed breaker does not meet the trip condition, the trial flag implies half-open, and every bucket has errors at most requests |
| `Hystrix.TripsMeans` | circuitbreaker/hystrix/hystrix.go:264-288 | the division in the source decides exactly: at least `volume` requests, of which at least the threshold fraction failed |
| `Hystrix.ClosedNext` | circuitbreaker/hystrix/hystrix.go:182-222 | in every reachable closed state the totals do not exceed the thresholds; a mark opens the breaker exactly when the totals after it do, and nothing else changes its state |
| `Hystrix.OpenNext` | circuitbreaker/hystrix/hystrix.go:149-179 | an open breaker is half-opened exactly by `State`, or by `Allow` before it is shut, once the sleep window has passed |
| `Hystrix.HalfOpenNext` | circuitbreaker/hystrix/hystrix.go:182-222 | the first mark settles a half-open breaker: a success closes it with an empty ring, a failure reopens it from that moment |
| `Hystrix.OpenHasCause` | circuitbreaker/hystrix/hystrix.go:182-222 | a run that ends open contains the mark that opened the breaker, by meeting volume and error rate on the ring of that moment or by failing a half-open trial, it set `openedAt`, and nothing left the open state since |
| `Hystrix.HalfOpenHasCause` | circuitbreaker/hystrix/hystrix.go:149-179 | a run that ends half-open contains the `Allow` or `State` that half-opened it, at least a sleep window after it opened, and nothing left the half-open state since |
| `Hystrix.StepConserves` | circuitbreaker/hystrix/hystrix.go:182-222 | one operation moves counts between held, cleared and recorded without loss |
| `Hystrix.CountsConserved` | circuitbreaker/hystrix/hystrix.go:182-222 | over every run counts held plus counts cleared equal outcomes recorded, for requests and errors |
| `Hystrix.RunDrivesRing` | circuitbreaker/hystrix/hystrix.go:182-222 | between resets any run drives the ring through the ring's own operations; a failed trial only rotates |
| `Hystrix.ResetIsReady` | circuitbreaker/hystrix/hystrix.go:314-318 | a successful trial leaves a ring that is ready for a new history |
| `Hystrix.TripsOnWindow` | circuitbreaker/hystrix/hystrix.go:264-288 | on clean ring operations since the start or the last reset, a mark trips a closed breaker if and only if the outcomes recorded since then in the last `bucketCount` slots meet the volume and the error rate |
| `Hystrix.OneTrialPerEpisode` | circuitbreaker/hystrix/hystrix.go:149-179 | nobody is admitted while open, and two admissions never fall in one half-open episode |
| `Hystrix.TrialNeedsQuery` | circuitbreaker/hystrix/hystrix.go:149-179 | a half-open admission implies the episode was opened by `State()` and nobody was admitted in it before |
| `Hystrix.QueryOpensOneTrial` | circuitbreaker/hystrix/hystrix.go:241-252 | an episode opened by `State()` admits the first `Allow` that follows unless the breaker was shut |
| `Hystrix.AdmittedIff` | circuitbreaker/hystrix/hystrix.go:149-179 | over every run an `Allow` is admitted if and only if the breaker was not shut before and is closed, or half-open in an episode opened by `State` that admitted nobody yet; on a closed breaker it changes nothing |
| `Hystrix.StuckStays` | circuitbreaker/hystrix/hystrix.go:225-238 | an open breaker, or a half-open one with the flag set, stays so and refuses under any further `Execute` calls |
| `Hystrix.NoRecoveryByExecute` | circuitbreaker/hystrix/hystrix.go:225-238 | in runs of non-overlapping `Execute` calls nothing is admitted again after the first trip |
| `Hystrix.ExecuteCounts` | circuitbreaker/hystrix/hystrix.go:225-238 | a call on a closed breaker that was not shut runs and the ring counts it with its own outcome; a refused call leaves the ring alone |
| `Sres.Breaker.constructor` | circuitbreaker/sres/sres.go:84-101 | a new breaker has an empty ring |
| `Sres.Breaker.Stats` | circuitbreaker/sres/sres.go:231-238 | the summing loop returns the ring's totals |
| `Sres.Breaker.Allow` | circuitbreaker/sres/sres.go:119-154 | the decision for any random draw, after rotating |
| `Sres.Breaker.Mark` | circuitbreaker/sres/sres.go:157-177 | one outcome is counted in the current bucket after rotating |
| `Sres.Breaker.State` | circuitbreaker/sres/sres.go:198-215 | the reported state as a function of the buckets, without rotating |
| `Sres.AcceptanceRange` | circuitbreaker/sres/sres.go:119-154 | on a non-empty window the acceptance lies in [0,1), is 0 exactly when requests are at most K times errors, which is exactly when `State` reports open |
| `Sres.AllowDecides` | circuitbreaker/sres/sres.go:119-154 | a shut breaker admits nobody, an empty window everybody, and otherwise exactly the draws with draw * (requests + 1) < requests - K * errors |
| `Sres.ReportMeans` | circuitbreaker/sres/sres.go:198-215 | `State` reports closed exactly on an empty window and open exactly when requests do not exceed K times errors |
| `Sres.SuccessRaises` | circuitbreaker/sres/sres.go:119-154 | one more success never lowers the acceptance |
| `Sres.FailureLowersIff` | circuitbreaker/sres/sres.go:119-154 | one more failure does not raise the acceptance if and only if a condition on K, requests and errors holds; for K at least 1 always |
| `Sres.FailureCanRaise` | circuitbreaker/sres/sres.go:119-154 | for K = 1/2 a failure can raise the acceptance |
| `Sres.HigherKIsStricter` | circuitbreaker/sres/sres.go:55-63 | raising K never raises the acceptance |
| `Sres.MarkMovesAcceptance` | circuitbreaker/sres/sres.go:157-177 | without rotation on a non-empty window a recorded success never lowers the breaker's acceptance and for K at least 1 a recorded failure never raises it |
| `Sres.RunDrivesRing` | circuitbreaker/sres/sres.go:119-223 | any run of the breaker, closed on the way or not, drives its ring through the ring's own operations; an `Allow` after `Close` does nothing to it |
| `Sres.AcceptanceOfWindow` | circuitbreaker/sres/sres.go:119-177 | the totals are exact at every call of a run if and only if its ring operations are clean, and then the acceptance is the formula of exactly the outcomes of the last `bucketCount` slots |
| `Vegas.Breaker.constructor` | circuitbreaker/vegas/vegas.go:94-113 | a new breaker is closed with zero averages |
| `Vegas.Breaker.UpdateLocked` | circuitbreaker/vegas/vegas.go:215-234 | outlier filter, smoothing and baseline update |
| `Vegas.Breaker.EvaluateLocked` | circuitbreaker/vegas/vegas.go:237-266 | the three-armed evaluation with hysteresis |
| `Vegas.Breaker.RecordLatency` | circuitbreaker/vegas/vegas.go:167-177 | a latency sample, closing a half-open breaker first |
| `Vegas.Breaker.MarkFailure` | circuitbreaker/vegas/vegas.go:150-162 | a failure reopens a half-open breaker and otherwise counts as the longest latency |
| `Vegas.Breaker.Execute` | circuitbreaker/vegas/vegas.go:181-197 | an admitted call records its latency or its failure |
| `Vegas.ReachableInv` | circuitbreaker/vegas/vegas.go:215-266 | in every reachable state after an accepted sample, min <= base <= current <= max and base is the least accepted sample; the sample count is the number accepted |
| `Vegas.HalfOpenArmUnreachable` | circuitbreaker/vegas/vegas.go:237-266 | deleting the half-open arm of the evaluation changes no run |
| `Vegas.FailuresNeverOpen` | circuitbreaker/vegas/vegas.go:150-162 | a run of failures alone leaves the breaker closed with both averages at the maximum |
| `Vegas.SuccessAfterFailures` | circuitbreaker/vegas/vegas.go:167-177 | the first success after failures opens the breaker if and only if warm-up is over and the sample is small enough against alpha |
| `Vegas.BaselineSampleContracts` | circuitbreaker/vegas/vegas.go:215-266 | a baseline sample contracts current minus base by at least 7/8 and leaves open exactly when the remaining delay is below beta |
| `Vegas.SampleTaken` | circuitbreaker/vegas/vegas.go:215-234 | in every reachable state a sample between 1 ms and 30 s counts, moves the average an eighth of the way rounded down and lowers the baseline if smaller; any other is ignored |
| `Vegas.SampleDecides` | circuitbreaker/vegas/vegas.go:237-266 | in every reachable state, after warm-up a sample leaves a closed or half-open breaker open exactly when the delay exceeds alpha times the baseline, and makes an open one half-open exactly when it is below beta times the baseline |
| `Vegas.FailureMeans` | circuitbreaker/vegas/vegas.go:150-162 | a failure reopens a half-open breaker and is otherwise a sample of 30 s |
| `Vegas.ClosesIff` | circuitbreaker/vegas/vegas.go:167-177 | a baseline sample closes a half-open breaker if and only if the smoothed average settles within alpha of the baseline, and reopens it otherwise |
| `Vegas.Heals` | circuitbreaker/vegas/vegas.go:167-177 | for any positive alpha and beta, from every reachable open state baseline samples reach half-open within 210 samples; the next one closes the breaker if and only if the average settles, which with beta at most alpha it always does |
| `Vegas.OpenIsAbsorbing` | circuitbreaker/vegas/vegas.go:181-197 | in runs of `Execute` calls an open breaker never changes again |
| `Vegas.ExecuteMeans` | circuitbreaker/vegas/vegas.go:181-197 | a call is refused exactly while the breaker is open or shut; an admitted one records its failure if it failed and its latency if not |
| `RequestReply.ReplyChannel.Handle` | broker/request_reply.go:69-88 | the reply handler fills the one slot with the first message that passes the filter |
| `RequestReply.FirstMatch` | broker/request_reply.go:69-88 | the first delivered message that passes the correlation filter, with nothing before it passing |
| `RequestReply.DeliverAll` | broker/request_reply.go:69-88 | after any deliveries the reply channel holds exactly the first match, if there is one |
| `RequestReply.GenericRequest` | broker/request_reply.go:38-115 | a nil broker or message is refused first, the message is stamped with its id and headers, a reply is returned exactly when everything succeeds in time and is the first match, and each error has its one cause |
| `RequestReply.RequestStamped` | broker/request_reply.go:52-66 | a published request carries its own or a generated id, the chosen or a generated reply topic, its id as correlation id, and everything else unchanged |
| `RequestReply.ReplyCarries` | broker/request_reply.go:118-143 | a responder publishes its own body to the request's reply topic with the request's correlation id, and nothing when no reply topic is named |
| `RequestReply.ReachableInv` | broker/request_reply.go:57-143 | in every reachable state each published message is a request or an answer to one on its reply topic, and each slot or result is the first match among what was delivered |
| `RequestReply.OwnReplyOnSharedTopic` | broker/request_reply.go:57-143 | with distinct ids and kept headers, under every interleaving, duplication, loss and timeout, a returned reply is the first match delivered, answers that requester's own request, and carries the body some responder of the run passed for it, also on a shared reply topic |
| `RequestReply.AnswersAreResponses` | broker/request_reply.go:129-143 | every answer on the network carries the body that a responder of the run passed for that request |
| `RequestReply.OwnReplyOnPrivateTopic` | broker/request_reply.go:57-143 | on a reply topic nobody else uses, the same holds however many deliveries lose their headers |
| `RequestReply.ReplyArrives` | broker/request_reply.go:38-143 | a request that is published, answered and delivered returns the responder's body under its own correlation id |
| `RequestReply.FailureRecorded` | broker/request_reply.go:99-114 | a failed publication or a timeout fails the request |
| `RequestReply.OutcomeIsFinal` | broker/request_reply.go:99-114 | a failed request never returns and a returned one keeps its reply, whatever is delivered later |
| `RequestReply.OwnTopicEchoes` | broker/request_reply.go:57-115 | a request sent to its own reply topic can be returned as its own reply |
| `RequestReply.PrivateTopicNeeded` | broker/request_reply.go:57-143 | if two requesters share the topic, one delivery without headers can hand one the other's reply |
| `Cache.RedisCache.Get` | crud/cache/redis_cache.go:24-42 | hit, cached nil, miss, expiry and decoding failure |
| `Cache.RedisCache.SetWithTTL` | crud/cache/redis_cache.go:48-58 | one key is stored under its TTL, nil as the empty string |
| `Cache.GetAfterSet` | crud/cache/redis_cache.go:24-58 | what is set is read until it expires and not after, a cached nil included, and other keys are untouched |
| `Cache.GetAnswers` | crud/cache/redis_cache.go:24-42 | a lookup answers an error, a miss, a cached nil or the decoded value, each exactly when it should |
| `Cache.CacheSupport.GetOrLoad` | crud/cache/support.go:47-124 | the result and the store after one call, in every branch |
| `Cache.AnswersWithoutLoading` | crud/cache/support.go:55-87 | over-long keys, bypassing calls, hits and failing lookups are answered without touching the store |
| `Cache.EmptyLoadKeptIff` | crud/cache/support.go:107-113 | an empty result leaves the store unchanged if and only if caching empty results is off or the write fails, and is otherwise found again for exactly five seconds |
| `Cache.ValueLoadKept` | crud/cache/support.go:115-117 | a loaded value is answered and found again until its own TTL has run out; a failed load is an error and stores nothing |
| `Cache.LoadThenServe` | crud/cache/support.go:71-123 | a failed load stores nothing; a successful one is served to every caller until its TTL runs out and is loaded again afterwards |
| `CacheAside.ReachableInv` | crud/cache/support.go:71-123 | in every interleaving each stored cell, flight and returned value traces back to a production of a flight on that key |
| `CacheAside.HitReturnsProduction` | crud/cache/redis_cache.go:24-42 | a cache hit returns exactly what the flight that wrote the cell produced |
| `CacheAside.ProductionsAreTrue` | crud/cache/support.go:100-106 | every value a loader produced was the source's value at the moment of reading |
| `CacheAside.NoCachedAbsence` | crud/cache/support.go:107-113 | if no call on a key caches empty results, no caller is ever told "absent" by the cache |
| `CacheAside.OneFlightPerKey` | crud/cache/support.go:89-118 | at no moment of any run are two flights in the air for the same key |
| `CacheAside.SharersAgree` | crud/cache/support.go:89-123 | all callers handed the result of one flight were handed the same |
| `CacheAside.EvictionMisses` | crud/cache/redis_cache.go:24-42 | an evicted key is missed and no other key is affected |
| `CacheAside.BoundedStaleness` | crud/cache/support.go:71-123 | in every run, a value returned without error, "absent" included, that goes back to a loader was the source's value at some earlier moment of the run; unless it came from a cell without an expiry, its age is within the stored TTL plus the flight's duration, the shared flight's duration plus the time to wake, or the caller's own load; one that goes back to a nil loader can only be "absent" |
| `CacheAside.BoundedForKey` | crud/cache/support.go:71-123 | every value returned on a key is within the bound if the calls on that key pass loaders and either bypass the cache or have a positive TTL, whatever happens on other keys |
| `CacheAside.BoundedIff` | crud/cache/support.go:71-123 | for any key and any set of options, all runs whose calls on the key use these options return only values within the bound if and only if each of them has a loader and either bypasses the cache or has a positive TTL |
| `CacheAside.NilCallerMisled` | crud/cache/support.go:100-117 | a caller without a loader is told "absent" although the source held the value for longer than any bound, whatever its other options |
| `CacheAside.NilLoaderHides` | crud/cache/support.go:100-117 | if empty results are cached, so is the next caller, which has a loader |
| `CacheAside.ZeroTTLServesForever` | crud/cache/redis_cache.go:48-58 | with a loader and a zero TTL a caller is served a value of any age after the source dropped it |
| `CacheAlone.PlayIsRun` | crud/cache/support.go:47-124 | playing a script of steps after a run is a longer run |
| `CacheAlone.LoneCaller` | crud/cache/support.go:47-124 | from every reachable state, a call that meets no other flight on its key ends with the result and the store of `GetOrLoad`'s single-caller specification, in every branch |
| `Apollo.JoinOfSplit` | config/apollo/utils.go:25-54 | joining the segments of a key gives the key back |
| `Apollo.SplitOfJoin` | config/apollo/utils.go:58-75 | splitting joined dot-free segments gives the segments back |
| `Apollo.SplitOfDotted` | config/apollo/utils.go:58-75 | the segments of two texts joined by a dot are the segments of each in turn |
| `Apollo.ResolveSetsOrKeeps` | config/apollo/utils.go:25-54 | one call makes the key's lookup the value unless a scalar sits at a proper prefix, and then leaves the whole map unchanged |
| `Apollo.ResolveFrame` | config/apollo/utils.go:25-54 | every key not prefix-comparable with the resolved one keeps its lookup |
| `Apollo.InsertsCommute` | config/apollo/utils.go:25-54 | two calls with different keys commute on any map |
| `Apollo.OrderIrrelevant` | config/apollo/apollo.go:64-71 | resolving any permutation of entries with distinct keys gives the same map |
| `Apollo.ResolvedLeaves` | config/apollo/apollo.go:64-71 | the leaves of the result are exactly the entries with no other entry at a proper prefix |
| `Apollo.FlattenIsLookup` | config/apollo/utils.go:25-54 | flattening lists exactly the scalar lookups |
| `Apollo.FlattenRoundTrip` | config/apollo/utils.go:25-54 | flattening the result returns exactly the original pairs if and only if the keys are prefix-free |
| `Apollo.GenKeyPath` | config/apollo/utils.go:58-75 | a generated key is the namespace's segments, less a known format suffix, followed by the sub-key's |
| `Apollo.FormatDropped` | config/apollo/utils.go:58-75 | the extension of a namespace is dropped exactly when it is yaml, yml, json or properties |
| `Apollo.PlainNamespaceKept` | config/apollo/utils.go:58-66 | a namespace without an extension is kept whole and an empty one adds nothing |
| `Apollo.GenKeyPreserves` | config/apollo/utils.go:58-75 | prefixing preserves and reflects equality and the proper-prefix relation |
| `Apollo.ConfigRoundTrip` | config/apollo/apollo.go:64-71 | a whole namespace gives the same map in any visiting order and flattens back to its pairs if and only if its keys are prefix-free |
| `ApolloMaps.MapObject.Walk` | config/apollo/utils.go:25-54 | the walk over nested mutable maps updates the heap as `Insert` updates the value, keeping maps unshared |
| `ApolloMaps.Resolve` | config/apollo/utils.go:25-54 | one call on a mutable map tree |
| `ApolloMaps.GetConfig` | config/apollo/apollo.go:64-71 | the loop over the namespace's cache builds a fresh map tree equal to `Config` |
| `Columns.SetSliceFrom` | crud/cassandra/columns.go:347-357 | the element loop decodes all elements or leaves the destination as it was |
| `Columns.SetMapFrom` | crud/cassandra/columns.go:360-374 | the entry loop decodes all entries or leaves the destination as it was |
| `Columns.EncodesIff` | crud/cassandra/columns.go:159-202 | encoding succeeds exactly for bools, integers of any width, floats, strings, times, byte slices, and slices and string-keyed maps whose elements all encode |
| `Columns.ArgCarries` | crud/cassandra/columns.go:159-202 | the argument carries the value, a plain int widened to 64 bits, collections element by element |
| `Columns.FieldRoundTripIff` | crud/cassandra/columns.go:159-202 | encoding and decoding one field is the identity if and only if its type is in the supported family or the value is zero |
| `Columns.Fold` | crud/cassandra/columns.go:253-258 | the folding loop keeps every column under its folded name |
| `Columns.FoldsItself` | crud/cassandra/columns.go:253-258 | a row whose names are folded already is its own lookup |
| `Columns.EntityFromRow` | crud/cassandra/columns.go:241-267 | folds the names, then the loop over the column specs decodes each into its own field path |
| `Columns.ColumnsAndArgs` | crud/cassandra/columns.go:129-156 | the encoding loop over reflection paths lists name and argument of every non-key column in order, with its errors |
| `Columns.DecodeWalk` | crud/cassandra/columns.go:54-108 | decoding along the flattened field paths is decoding the nested struct field by field, at any embedding depth |
| `Columns.WalkReads` | crud/cassandra/columns.go:54-108 | reading along the flattened field paths gives the leaves of the nested struct in order |
| `Columns.StoredRow` | crud/cassandra/columns.go:129-156 | with column names distinct ignoring case the inserted row holds every column's argument under its own folded name |
| `Columns.KeyRoundTripIff` | crud/cassandra/columns.go:205-231 | binding and decoding a primary key is the identity if and only if its type is in the supported family, collections of scalars included, or the value is zero |
| `Columns.CollectOkIff` | crud/cassandra/columns.go:54-108 | the columns can be collected exactly when all their names are identifiers and there is a key |
| `Columns.InsertedIff` | crud/cassandra/repository.go:112-147 | an entity with one key is inserted exactly when its column names are identifiers, its key is not empty, and it has ordinary columns, all encodable |
| `Columns.EntityRoundTripIff` | crud/cassandra/columns.go:54-431 | every such entity is inserted, and decoding its row is the identity if and only if every column and the key have a supported type or are zero, through embedded structs of any depth |
| `Columns.ForeignValueKept` | crud/cassandra/columns.go:280-344 | a row value of another scalar type never changes a field |
| `Columns.UuidFills` | crud/cassandra/columns.go:325-331 | a native uuid fills a uuid or a string field and no other |
| `Columns.KeyNames` | crud/cassandra/columns.go:80-87 | a key is recognised by its field name in any case |
| `Columns.IdentifierMeans` | crud/cassandra/columns.go:39-39 | column names are what the identifier pattern matches |
| `Columns.StructColumnRefused` | crud/cassandra/columns.go:167-171 | a struct that is not embedded is one column and cannot be encoded |
| `Columns.EmbeddedStructFlattened` | crud/cassandra/columns.go:60-67 | an embedded struct contributes exactly the columns of its own fields |
| `Columns.SampleLeaves` | crud/cassandra/mixin/tenant_id.go:22-24 | an entity with a key, the tenant mixin, a text, an unexported and a skipped field has exactly the key, `tenant_id` and the text as columns |
| `Repository.InjectMeans` | crud/cassandra/tenant_enforce.go:25-46 | the injected condition means the caller's and the tenant condition, every argument stays bound to its own placeholder, and only a missing viewer on a scoped entity is refused |
| `Repository.Int64Means` | crud/cassandra/tenant_enforce.go:25-46 | ids are converted modulo 2^64 into the signed range |
| `Repository.Repo.SelectKeys` | crud/cassandra/repository.go:472-480 | one row per matching key, without repetition |
| `Repository.Repo.DeleteRows` | crud/cassandra/repository.go:481-504 | the key-reading loop and the delete by key remove exactly the listed keys |
| `Repository.KeysRead` | crud/cassandra/columns.go:270-277 | the keys read off the selected rows are exactly the matching keys |
| `Repository.ColumnFound` | crud/cassandra/columns.go:270-277 | a column is found under its own name first, then under its folded name |
| `Repository.Repo.DeleteByWhere` | crud/cassandra/repository.go:452-504 | fails exactly on a missing condition, a missing viewer, a failing select, or a failing delete with something to delete; otherwise removes exactly the rows satisfying the caller's and the tenant condition, leaves all others and returns the number removed; on any error nothing changes |
| `Repository.Repo.DeleteByPKValues` | crud/cassandra/repository.go:396-447 | the same for the permitted rows with a listed key, each counted once; an empty list succeeds at once |
| `Repository.Repo.DeleteByIDs` | crud/cassandra/repository.go:377-383 | the same for 64-bit ids converted to int64 and compared by value with keys of any integer width, duplicates counted once |
| `Repository.Repo.Count` | crud/cassandra/repository.go:336-364 | the number of rows satisfying the caller's and the tenant condition |
| `Repository.Repo.GetByPK` | crud/cassandra/repository.go:218-273 | a row is returned exactly when it exists and passes the client-side tenant check; another tenant's row is reported like a missing one |
| `Repository.VerifyMeans` | crud/cassandra/tenant_enforce.go:54-101 | the check by key, case by case: unscoped entities and unrestricted viewers pass, a missing viewer is an error, a tenant passes exactly on rows whose integer tenant fits in 32 bits and equals its id modulo 2^32 |
| `Repository.ChecksAgreeIff` | crud/cassandra/tenant_enforce.go:54-101 | the check by key and the injected condition admit the same rows if and only if the tenant id fits in 32 bits |
| `Repository.CreatedIsVisibleIff` | crud/cassandra/repository.go:112-147 | the encoded row of an entity stamped by `Create` satisfies the creator's injected condition if and only if the id fits in 32 bits, passes the check by key always, and belongs to no other tenant below that bound |
| `Retry.Do` | retry/retry.go:126-176 | at most `maxAttempts` calls, every call but the last a retryable failure, the kind of result determined by the trace, and total sleep, an interrupted one included, and every start within the budget |
| `Retry.CutToBudget` | retry/retry.go:150-161 | the sleep is the wait cut to what is left of the budget, or none is left |
| `Retry.SleepMeans` | retry/retry.go:150-172 | the whole wait is slept if it fits, up to the end of the budget if not, nothing for a negative wait, and an interruption ends the sleep no later than either |
| `Retry.ComputeDelay` | retry/retry.go:216-228 | the early-exiting loop computes `Delay` for any attempt and factor |
| `Retry.DelayIsCappedPower` | retry/retry.go:216-228 | for a factor of at least 1 the delay is min(floor(initial * factor^attempt), max) and never decreases |
| `Retry.CapMeans` | retry/retry.go:216-228 | without a cap the delay is the floor of the power; with one it is cut exactly when above it |
| `Retry.FormulaHoldsIff` | retry/retry.go:216-228 | for any non-negative factor, exactly when the early exit agrees with that formula |
| `Retry.ShrinkingFactorDiffers` | retry/retry.go:216-228 | a factor of 1/2 for which it does not |
| `Retry.ZeroFactorNeverWaits` | retry/retry.go:13-22 | a backoff without a factor waits once and then not at all |
| `Retry.FullJitter` | retry/retry.go:269-271 | the jittered delay lies in [0, delay] |
| `Retry.EqualJitter` | retry/retry.go:275-278 | the jittered delay lies in [half, delay], half being the integer quotient |
| `Retry.JitterReaches` | retry/retry.go:269-278 | jitter reaches every duration of its range |
| `Batch.BatchInserter.constructor` | crud/clickhouse/batch.go:36-68 | a new inserter is empty, and a non-positive batch size becomes 1000 |
| `Batch.NewBatchInserter` | crud/clickhouse/batch.go:29-69 | an inserter is made exactly when there is at least one column |
| `Batch.BatchInserter.Flush` | crud/clickhouse/batch.go:110-137 | the append loop sends the whole buffer or leaves everything as it was |
| `Batch.BatchInserter.Add` | crud/clickhouse/batch.go:72-89 | a row is refused after cancellation, and otherwise buffered and perhaps flushed |
| `Batch.BatchInserter.Close` | crud/clickhouse/batch.go:100-107 | flushes, then cancels whatever the flush returned |
| `Batch.FlushMeans` | crud/clickhouse/batch.go:110-137 | a flush succeeds if and only if the buffer is empty or preparing, every append and sending work; it then empties the buffer into one batch, and otherwise changes nothing under the error of the first failing step |
| `Batch.AddMeans` | crud/clickhouse/batch.go:72-89 | an add is refused only after cancellation, buffers below the batch size, and flushes with the row included at the batch size |
| `Batch.RowsConserved` | crud/clickhouse/batch.go:72-137 | over every run with arbitrary failures the rows sent followed by the rows buffered are the rows accepted, in order, none lost, none repeated |
| `Batch.NothingAfterClose` | crud/clickhouse/batch.go:100-107 | after closing or cancellation no row is accepted any more |
| `Batch.BatchesWellSized` | crud/clickhouse/batch.go:72-89 | after a successful add the buffer is below the batch size, and no sent batch is empty |
| `Batch.PoisonedForever` | crud/clickhouse/batch.go:110-137 | once a row that cannot be appended is buffered, nothing is ever sent again and every flush fails |
| `Selector.RoundRobin.Pick` | selector/selector.go:33-41 | the pick and the wrapped counter, none on an empty snapshot |
| `Selector.RoundRobin.PickMany` | selector/selector.go:33-41 | consecutive picks are spread evenly if the counter does not wrap meanwhile or the number of instances divides 2^64 |
| `Selector.Fair` | selector/selector.go:33-41 | each position is chosen floor(m/n) or ceil(m/n) times in m consecutive picks from any start |
| `Selector.AlwaysEvenIff` | selector/selector.go:33-41 | the spread is even from every counter value if and only if the number of instances divides 2^64 |

## Left out

- Broker drivers, configuration providers, loggers, tracing, codecs and AI adapters: plumbing around foreign clients.
- `format` of the Apollo source, linear and fixed backoff, the random and first strategies and the balancer: single expressions.
- `Query`, `BatchCreate` and the checks of key kinds in `Get` and `GetByUUID`: nothing beyond `Create`, counting, deleting and reading by key.
- CQL text and its parsing: conditions are syntax trees whose placeholders take arguments by position.
- Interleaved writers between the select and the delete of a delete plan, and composite primary keys.
- Tag parsing and snake-casing of field names, named scalar types and pointers in `Columns`: fields arrive with their column name, key mark and kind, and nil and empty collections are one value.
- Rounding of floating-point numbers: rates, factors and delays are reals, except the Vegas average, whose expression is exact in float64 and is modelled as integer division.
- The two clocks of Go's `time.Time`: the source takes elapsed time from the monotonic reading and the slot from the wall clock; the model has one time for both, which may run backwards where a lemma does not say otherwise.
- Overflow of durations, and a window shorter than one nanosecond per bucket, on which the source divides by zero.
- ApolloMaps.MapObject.Walk: the source's cursor loop is written as recursion on the cursor; the maps themselves are updated in place.
- CacheAside.BoundedStaleness: assumes a codec that round-trips and never emits the empty string.
- Columns.EntityRoundTripIff: the stored row is taken to come back with each argument's own dynamic type; the driver yields a Go `int` for a column declared `int`, which then leaves an `int32` field at zero.
- Repository.Repo.GetByPK: the key is looked up with its dynamic type, so an int64 argument does not find a row keyed by a narrower column, which the server would find.
- Columns.EntityFromRow: where two column names of a row differ only in case, either may win, as in the source; a nil destination is not modelled.
- RequestReply.OwnReplyOnSharedTopic: asks for a request topic different from the reply topic, because `RequestReply.OwnTopicEchoes` shows it false without that.
- Goroutine scheduling inside one lock, cancellation of a caller waiting on a shared flight, metrics, and negative TTLs in the cache.
- Batch.BatchInserter.Flush: whether a row can be appended is a fixed property of the row, standing for the field-to-column match by reflection.
- `Pick` of the selector with a nil strategy builds a new round robin each time and so always takes the first instance; it is not modelled.
