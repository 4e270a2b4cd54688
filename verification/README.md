# Pixiu-RLS, modelled and proved in Dafny

Pixiu-RLS is a rate-limiting service: requests are matched to rules, every rule is charged in Redis by one of three
limiter scripts, addresses are checked against black and white lists and may be banned for misbehaving, hourly and daily
quotas are kept in two counters, and rules travel to every node through Redis and an update channel.

This project models that logic and proves what it promises over whole runs. `dafny verify dfyconfig.toml` checks it.

| files | what they are about |
|---|---|
| `TokenBucket`, `TokenExpiry`, `RetryHint` | the token bucket: state bounds, rate bound, key expiry, the retry hint |
| `LeakyBucket`, `LeakyExpiry`, `Euclid`, `Sandwich` | the leaky bucket: state bounds, key expiry, comparison with the token bucket |
| `SlidingWindow` | the sliding window: the pruned set against full history, how much it admits |
| `RedisStore`, `Scripts`, `Limiters`, `LimiterRuns` | Redis, the scripts as steps on it, the Go wrappers, keys, dispatch, many triples sharing one store |
| `RuleMachines`, `RuleBursts`, `RuleLimits`, `MixedRuns` | the machine of a rule and the store that runs it, what its callers are told request by request, the limits in the rule's own numbers, and what callers are granted in the middle of other traffic |
| `IPList`, `IPCluster` | the two-level address list cache; bans across many nodes |
| `Dims` | the dimension values a bucket belongs to, and which of them it tells apart |
| `Engine`, `EngineVerdict`, `EngineAnswers` | the engine's methods; what its loop amounts to; what a whole request is answered |
| `EngineRuns`, `EngineBans` | runs of whole requests on many nodes: how many are allowed, and when an address is banned |
| `Quota` | the hour and day counters |
| `RuleCache`, `RuleSync`, `Poller` | a node's rule cache; the distribution protocol between nodes; pulling from an external source |
| `Trie`, `RouteIndex`, `RouteOrder`, `Router` | the heap-allocated prefix trie, the route index, the order of results, matching |
| `Basics`, `Config`, `Text` | shared vocabulary |

Every mutable object of the program is a class, every in-place loop is a method with invariants. Such a method is proved
equal to a function of the old state (`Limiters.Serve`, `IPList.Check`, `Engine.ChargeRules`, `Quota.Step`, ...), and the
lemmas are about those functions. The limiter machines are linked to whole requests in four steps. By
`LimiterRuns.NonInterference` other traffic is to a triple of algorithm, rule and dimensions no more than the passing of time;
by `RuleMachines.StoreRunsMachine` the triple's key then holds its machine's state; `MixedRuns` turns that into bounds on the
decisions callers receive; and `EngineRuns` into bounds on the requests the engine allows, on any number of nodes.

## Assumptions

* Redis is one linearizable store; a script, or a read together with the local store that follows it, is one step.
* One millisecond clock is shared by callers and Redis. A key is gone for good once the clock has *passed* its expiry, also if
  the clock then goes back. The clock may jump back wherever a statement does not say otherwise; the bounds on decisions and
  on bans over an interval of time need one that does not, and the quota has its exact tolerance (`Quota.ToleranceIff`).
  Other triples' calls count as readings of the clock and as nothing else (`LimiterRuns.NonInterference`); that a later
  reading by someone else can change a decision is `LimiterRuns.TimeShows`, and when it cannot is `LimiterRuns.AloneIfSteady`.
* Tokens, levels and rates are exact reals.
* A failing Redis operation is a parameter: the set of keys that cannot be reached, or the `Weather` of one operation.
* Trimming and letter case are the ASCII ones; strings are sequences of code points.
* The hash of the printed dimension values is any function to hexadecimal strings; statements that need it say that it does not
  collide. How the values are printed before they are hashed is modelled as it is.
* SCAN lists every key that is there from beginning to end of the scan; rules in Redis are never deleted.
* Quota buckets are UTC hours and days.

## Where the code and its promise part

Each of these is proved as an exact condition or by a concrete input; the code is modelled as it is.

* Forgetting an idle token bucket is unobservable if and only if `(limit + burst) * window <= limit * (ttl + 1)`
  (`RuleLimits.TokenEviction`); for the leaky bucket, if and only if
  `(ttl + 1) * limit >= (q + 1) * window - gcd(limit, window)` (`RuleLimits.LeakyEviction`).
* Sliding-window requests in the same millisecond share one set member, so with up to `m` requests per millisecond a window
  keeps to `limit` if and only if `m * min(limit, window) <= limit` (`SlidingWindow.PromiseIff`).
* Waiting exactly the Retry-After seconds can be too short; one millisecond more always suffices
  (`RetryHint.WaitingTheHeader`; `RuleLimits.HeaderCanBeTooShort` is a run of a rule on which it happens).
* `ScriptToken` admits as `script.lua` does and leaves the same bucket if and only if the clock has moved forward or the stored
  tokens fit the capacity (`Scripts.SameMachineIff`), which they do as long as the parameters stay the same
  (`Scripts.SameRun`); the excess left by a lowered limit tells the two apart (`Scripts.ExcessIsKept`).
* The mux normalizes a copy of its limiter names and keeps the original map: rules find the registered limiters in any spelling
  if and only if every normalized name is registered for the same limiter (`Limiters.FoundIffNormalized`), and one registered
  in mixed case is found under no spelling at all (`Limiters.MixedCaseIsLost`).
* A fail-closed poller drops its rules on a failure and then skips the next fetch of the same version
  (`Poller.FailClosedForgets`); exactly when its rules are the expected ones is `Poller.UpToDateIff`.
* The values of a rule's dimensions are joined with spaces before they are hashed, so that a rule with two or more dimensions puts
  callers with different values into one bucket when the values have spaces in them: even under a hash that never collides a rule
  keeps all callers apart if and only if it names at most one dimension (`EngineAnswers.NeverSharesIff`).
* Of two updates on one node that both load its snapshot before either replaces it, the later one undoes the other until the next
  reload (`RuleSync.StaleCopyLoses`); Redis loses nothing (`RuleSync.RedisKeepsAll`).
* The quota keeps its limits under a clock that goes back if and only if no request, under whatever tag, reads a clock that lags
  more than the counters' slack and one millisecond behind: 600 001 ms for the hour, 3 600 001 ms for the day
  (`Quota.ToleranceIff`).
* A quota denial names the hour even when the day is exhausted too, and its delay is cut to whole milliseconds, so a caller who
  comes back exactly then is admitted if and only if the clock reading was a whole millisecond and the day then has room
  (`Quota.RetryAdmittedIff`, `Quota.RetryLandsOnNextBucket`; `Quota.FractionDenied` and `Quota.ExhaustedDayDenied` are the two
  ways to be denied).

## Model

| member | source | states |
|---|---|---|
| TokenBucket.TokensWithinCap | internal/limiter/script.lua:15-32 | after every run the tokens lie in [min(0, cap), cap], and the stored time is the last request's, even when the clock went back |
| TokenBucket.TokensWithinCurrentCap | internal/limiter/script.lua:15-32 | under any interleaving of clock jumps, rule changes and evictions the tokens stay in [0, limit + burst] of the rule now in force |
| TokenBucket.Potential | internal/limiter/script.lua:22-32 | admissions plus tokens left never exceed the capacity plus what the clock's forward movement earned |
| TokenBucket.RateBound | internal/limiter/script.lua:15-32 | any stretch of any run without eviction admits at most cap plus rate times the forward clock movement inside it |
| TokenBucket.BurstIsAdmitted | internal/limiter/script.lua:17-32 | the bound is attained: a full bucket admits `n <= cap` requests in one millisecond, leaving `cap - n` |
| TokenExpiry.EvictedEqualsFull | internal/limiter/script.lua:17-25 | a bucket that had time to refill before its key expired is as good as a missing one |
| TokenExpiry.SameRun | internal/limiter/script.lua:15-45 | if an empty bucket refills within the time to live, a run with expiry keeps the same state and gives the same replies as one without |
| TokenExpiry.DrainThenWait | internal/limiter/script.lua:15-45 | otherwise draining the bucket and waiting for the expiry gives a different reply |
| TokenExpiry.UnobservableIff | internal/limiter/script.lua:15-45 | expiry is unobservable over all runs if and only if an empty bucket refills before it |
| TokenExpiry.IntervalBound | internal/limiter/script.lua:15-45 | with unobservable expiry an interval admits at most the capacity plus what it earns |
| RetryHint.WaitingTime | internal/limiter/script.lua:34-40 | the waiting time computed by the script is the exact one rounded down, and is what separates denial from admission |
| RetryHint.ProbesOnlyWait | internal/limiter/script.lua:22-32 | denied probes leave exactly the bucket that waiting alone would have left |
| RetryHint.ResetUnmoved | internal/limiter/script.lua:34-40 | the reset time a denied probe is told is the one the first denial was told |
| RetryHint.HintIsTight | internal/limiter/script.lua:34-45 | after a denial and any denied probes: denied before the reset time, admitted after it, and on it exactly when the waiting time is whole |
| RetryHint.WaitingTheHeader | internal/limiter/tokenbucket.go:91-93 | the Retry-After seconds plus a millisecond always suffice; the seconds alone suffice unless the hint is a positive multiple of 1000 that was rounded down |
| LeakyBucket.LevelWithinLargestQueue | internal/repo/lua.go:84-98 | across rule changes, clock jumps and evictions the level stays in [0, M + 1), M the largest queue so far |
| LeakyBucket.LevelWithin | internal/repo/lua.go:84-98 | with fixed parameters the level stays in [0, q + 1) after every run |
| LeakyBucket.Potential | internal/repo/lua.go:88-98 | what was admitted is still in the queue or has drained meanwhile |
| LeakyBucket.RateBound | internal/repo/lua.go:84-98 | any stretch of any run without eviction admits fewer than q + 1 plus rate times the forward clock movement inside it |
| LeakyExpiry.StaysOnGrid | internal/repo/lua.go:84-101 | with rate a/b in lowest terms every level is a multiple of 1/b below q + 1 |
| LeakyExpiry.SameRun | internal/repo/lua.go:84-109 | if the fullest reachable queue drains before the expiry, a run with expiry is the same as one without |
| LeakyExpiry.IntervalBound | internal/repo/lua.go:84-109 | with unobservable expiry an interval admits fewer than q + 1 plus what drains in it |
| LeakyExpiry.Noticed | internal/repo/lua.go:84-109 | otherwise a run exists whose replies differ: fill, rotate to the fullest level, wait for the expiry, fill and rotate again |
| Sandwich.QueueBeatsBucket | internal/repo/lua.go:84-98 | on every request sequence a queue of size q has admitted at least as many as a token bucket of capacity q at the same rate |
| Sandwich.BiggerBucketBeatsQueue | internal/repo/lua.go:50-66 | and at most as many as a token bucket of capacity q + 1 |
| Euclid.GcdIsGreatest | internal/limiter/leaky.go:43-45 | the divisor in the leaky expiry condition is the greatest common divisor of limit and window |
| SlidingWindow.LogIsHistory | internal/repo/lua.go:17-24 | the incrementally pruned set is the set of all request milliseconds of the last window, admitted or not, expired or not |
| SlidingWindow.EvictionUnobservable | internal/repo/lua.go:23-38 | every reply is the one a key that never expires would give |
| SlidingWindow.RemainingIs | internal/repo/lua.go:26-38 | in every run the reply tells the limit less the distinct milliseconds of the window, this one included, and admits if that is not negative |
| SlidingWindow.AdmittedIff | internal/repo/lua.go:26-38 | a request is admitted if and only if at most `limit` distinct milliseconds of its window hold requests |
| SlidingWindow.DistinctAdmitted | internal/repo/lua.go:17-38 | no window anywhere in a run holds more than `limit` distinct admitted milliseconds |
| SlidingWindow.AdmittedBound | internal/repo/lua.go:20-38 | with at most m requests per millisecond no window admits more than m * min(limit, window) |
| SlidingWindow.CrowdAdmitted | internal/repo/lua.go:20-38 | that bound is attained |
| SlidingWindow.PromiseIff | internal/limiter/sliding.go:38-59 | at most `limit` per window is kept for all such traffic if and only if m * min(limit, window) <= limit |
| Scripts.TokenBucketScript | internal/limiter/script.lua:1-45 | the script replies and writes what the token bucket machine of capacity limit + burst and rate limit / window does, and changes nothing on an error |
| Scripts.ScriptToken | internal/repo/lua.go:41-73 | for every stored hash and argument: tokens on hand, admission, truncated reply and write; nothing on an error |
| Scripts.TruncatedIs | internal/repo/lua.go:72 | the amount replied loses its fraction towards zero |
| Scripts.SameMachineIff | internal/repo/lua.go:53-66 | for every stored bucket, admission and the bucket left are those of `script.lua` if and only if the clock moved forward or the stored tokens fit the capacity |
| Scripts.SameRun | internal/repo/lua.go:50-70 | with one capacity and rate, from a missing key, whole runs of the two scripts coincide, wherever the clock jumps |
| Scripts.ExcessIsKept | internal/repo/lua.go:53-66 | after one request at capacity four, of three more at capacity two in the same millisecond it admits the third, `script.lua` does not |
| Scripts.LeakyScript | internal/repo/lua.go:75-110 | the leaky script replies and writes what the leaky machine does, and changes nothing on an error |
| Scripts.SlidingScript | internal/repo/lua.go:7-39 | the sliding script prunes, enters and counts as the window machine does, and changes nothing on an error |
| Limiters.TokenTtlAtLeastWindow | internal/limiter/tokenbucket.go:53-56 | the time to live is twice the window, or the window where doubling overflows 64 bits |
| Limiters.DrainTime | internal/limiter/leaky.go:43-45 | queue / (limit / window), truncated, is queue * window / limit |
| Limiters.TokenBucketAllow | internal/limiter/tokenbucket.go:42-95 | for every rule, key and store: validation, time to live, script step, decision, reason and retry delay |
| Limiters.LeakyBucketAllow | internal/limiter/leaky.go:28-74 | likewise, with the queue default and the drain time |
| Limiters.SlidingWindowAllow | internal/limiter/sliding.go:28-61 | likewise for the sliding window |
| Limiters.Mux.constructor | internal/limiter/mux.go:26-42 | the default name is normalized, the limiter map is kept as given |
| Limiters.Mux.Allow | internal/limiter/mux.go:44-54 | the call goes to the limiter the normalized or default name selects; an unknown name changes nothing and is an error |
| Limiters.FoundIffNormalized | internal/limiter/mux.go:30-41 | for every limiter map: all spellings of all names find their limiters if and only if each normalized name is registered for the same limiter |
| Text.TrimSpaceIs | internal/limiter/mux.go:56-58 | trimming cuts off spaces, nothing else, and all of them at both ends |
| Limiters.MixedCaseIsLost | internal/limiter/mux.go:30-49 | a limiter registered as Token_Bucket is found under no spelling |
| Limiters.KeysAreInjective | internal/repo/redis.go:128-138 | limiter keys are injective in algorithm, rule id and hexadecimal hash, whatever the rule id contains |
| LimiterRuns.EngineAgreesWithMux | internal/core/engine.go:212-218 | with the limiters of main, engine and mux pick the same algorithm for every spelling |
| LimiterRuns.AlgoNames | internal/core/engine.go:212-218 | which trimmed, lower-cased names select which algorithm; none selects the token bucket, any other nothing |
| LimiterRuns.ServeTouchesOneKey | internal/core/engine.go:165 | a limiter call changes its own key only, and leaves there what its script writes |
| LimiterRuns.OneScriptPerKey | cmd/rls-http/main.go:75-79 | in every run each limiter key is written by one script, and no script meets a value of another type |
| LimiterRuns.ServeIsLocal | internal/limiter/mux.go:44-54 | a limiter call's outcome depends on its own key only |
| LimiterRuns.TickedAgrees | internal/limiter/mux.go:44-54 | in every run and under any clock a triple's key holds what it would if every other triple's call were only the passing of time |
| LimiterRuns.NonInterference | internal/core/engine.go:151-165 | so a request gets the decision it would get then, whatever anybody else did |
| LimiterRuns.AloneIfSteady | internal/core/engine.go:151-165 | unless somebody else read a later clock, it is the decision it would get if only calls of its own algorithm, rule and dimensions had ever been made |
| LimiterRuns.TimeShows | internal/limiter/script.lua:10-45 | a run in which the later clock read by somebody else's call turns a denial into an admission, because the key has expired |
| RuleMachines.StoreRunsMachine | internal/limiter/tokenbucket.go:53-94 | in every run, under any clock and with calls that fail to reach their key, a triple's key holds its rule's machine's state |
| RuleMachines.OwnAnswer | internal/core/engine.go:151-165 | in such runs every decision of a triple is its machine's reply, or a refusal with an error when its key cannot be reached |
| RuleMachines.AloneIsPure | internal/limiter/tokenbucket.go:52-94 | a triple alone, wherever the clock jumps, is in the state its requests lead to |
| RuleMachines.OnwardIsPure | internal/limiter/tokenbucket.go:52-94 | among others, under a clock that does not go back, so it is too, less what has expired since |
| RuleBursts.TokenBurst | internal/limiter/tokenbucket.go:42-95 | from a missing key a token bucket rule admits limit + burst requests of one millisecond; the whole decision of each request, remaining and delay included |
| RuleBursts.LeakyBurst | internal/limiter/leaky.go:38-73 | a leaky bucket rule admits as many as its burst, or its limit without one; the whole decision of each request |
| RuleBursts.SlidingBurst | internal/limiter/sliding.go:28-60 | a sliding window rule admits as many as its limit in different milliseconds of one window; the whole decision of each request |
| RuleBursts.SlidingCrowd | internal/repo/lua.go:20-38 | requests in one millisecond are all admitted and all told the same remaining quota |
| RuleBursts.TokenRemainingIsHonest | internal/limiter/script.lua:28-45 | from every stored bucket the remaining tokens told are how many more requests the same millisecond admits |
| RuleBursts.LeakyRemainingIsHonest | internal/repo/lua.go:93-109 | from every stored queue the remaining places told are how many more the same millisecond admits, or one less when the level is not whole |
| RuleBursts.FailsIff | internal/limiter/tokenbucket.go:42-61 | exactly when a limiter call fails; it then grants and changes nothing |
| MixedRuns.GrantedByMachine | internal/core/engine.go:151-165 | the allowed decisions of a triple in any stretch of any run, under any clock, are exactly those its machine admits |
| MixedRuns.TokenBound | internal/limiter/tokenbucket.go:52-94 | in mixed traffic a triple is granted at most limit + burst + D * limit / window requests in an interval of length D |
| MixedRuns.LeakyBound | internal/limiter/leaky.go:38-73 | in mixed traffic a triple is granted fewer than q + 1 + D * limit / window |
| MixedRuns.SlidingBound | internal/limiter/sliding.go:38-60 | in mixed traffic a triple called at most m times per millisecond is granted at most m * min(limit, window) in any window |
| RuleLimits.TokenEviction | internal/limiter/tokenbucket.go:52-58 | a rule's token bucket expiry is unobservable if and only if (limit + burst) * window <= limit * (ttl + 1), the time to live being twice the window, or the window where doubling overflows |
| RuleLimits.RefillsInTimeIff | internal/limiter/tokenbucket.go:53-56 | in plain numbers burst * window <= limit * (window + 1); a burst of at most the limit is always safe |
| RuleLimits.IntervalBound | internal/limiter/tokenbucket.go:52-58 | such a rule admits at most limit + burst + D * limit / window in any interval of length D |
| RuleLimits.DenialLeavesHint | internal/limiter/tokenbucket.go:83-94 | every denial of a rule with limit + burst >= 1 leaves a bucket to which the retry hint theorems apply |
| RuleLimits.HeaderCanBeTooShort | internal/api/http.go:225-230 | a run of the rule 2 per 2001 ms: two requests admitted, a third denied and told one second, and denied again after one second |
| RuleLimits.LeakyEviction | internal/limiter/leaky.go:38-51 | a rule's leaky bucket expiry is unobservable if and only if (ttl + 1) * limit >= (q + 1) * window - gcd(limit, window), q being burst or limit and the time to live the larger of q * window / limit and 1000, plus 1000 |
| RuleLimits.LeakyIntervalBound | internal/limiter/leaky.go:38-51 | a rule with unobservable expiry admits fewer than q + 1 + D * limit / window in any interval of length D |
| RuleLimits.FastDrain | internal/limiter/leaky.go:45-49 | in particular whenever window <= 999 * limit |
| IPList.LocalKeysDistinct | internal/core/iplist_cache.go:94-122 | local cache keys alias neither across addresses nor across lists |
| IPList.SharedKeysDistinct | internal/repo/redis.go:144-158 | counter, ban and list keys in Redis are distinct |
| IPList.IPListCache.Lookup | internal/core/iplist_cache.go:179-188 | answers from an unexpired entry only, and drops an expired one |
| IPList.IPListCache.SetWithTtl | internal/core/iplist_cache.go:190-202 | stores an entry with the given or the default lifetime |
| IPList.IPListCache.CheckIP | internal/core/iplist_cache.go:79-140 | the answer and the cache left behind, for every cache, store, address and failure |
| IPList.IPListCache.RecordDeny | internal/core/iplist_cache.go:143-177 | counter, ban, local entry and notification of one recorded denial |
| IPList.NeverHidesABan | internal/core/iplist_cache.go:94-120 | whatever the local cache holds, an address Redis bans or blacklists is denied |
| IPList.FailuresDeny | internal/core/iplist_cache.go:98-136 | any Redis error, unreachable or of the wrong type, denies; an undecided or allowing answer means the ban and both lists were read |
| IPList.AllowedIff | internal/core/iplist_cache.go:94-140 | exactly when an address is allowed by the lists |
| IPList.ListsAnswer | internal/core/iplist_cache.go:79-140 | which of the three answers an address gets, read off cache and store: refused, allowed, or left open, each if and only if |
| IPList.AnswersAreKept | internal/core/iplist_cache.go:94-137 | what was read from Redis is answered locally for its lifetime, whatever becomes of Redis |
| IPList.BansIff | internal/core/iplist_cache.go:157-176 | exactly when a denial counts and when it bans, and the counter, ban and local entry it writes |
| IPList.CounterCounts | internal/repo/redis.go:35-41 | denials of one window bring a missing counter to their number, running out one window after the first |
| IPList.ThresholdBans | internal/core/iplist_cache.go:162-176 | of denials within one window those from the threshold on ban, and none before |
| IPCluster.CountedDenial | internal/repo/redis.go:35-41 | a counter's value never exceeds the counted denials inside one hot window that is still running |
| IPCluster.StepKeepsSound | internal/core/iplist_cache.go:79-229 | every step of every node keeps counters, bans and cached entries backed by what happened |
| IPCluster.Reachable | internal/core/iplist_cache.go:79-229 | so does every run of any number of nodes |
| IPCluster.BansAreEarned | internal/core/iplist_cache.go:162-176 | a ban is written only if at least hotThreshold counted denials of that address fell within one hotWindow around now |
| IPCluster.BansEnd | internal/core/iplist_cache.go:94-106 | no node denies an address as temporarily banned later than 2 * blacklistTTL after the last ban write |
| IPCluster.WhitelistIsRecent | internal/core/iplist_cache.go:122-137 | an allowing answer, and an undecided one, agree with the whitelist as it stood at some instant of the last defaultTTL |
| IPCluster.BlacklistIsRecent | internal/core/iplist_cache.go:108-120 | no address is denied as blacklisted later than defaultTTL after the blacklist last held it |
| Engine.Engine.constructor | internal/core/engine.go:33-49 | for every limiter mux: a list cache exists exactly when a store does; every fail policy but fail-open, trimmed and in any case, is fail-closed |
| Engine.Engine.AllowRule | internal/core/engine.go:140-180 | one rule: missing store, missing dimension and unknown algorithm are errors that change nothing; otherwise the limiter's answer under the key of the request's dimension values, and the recorded denial |
| Engine.Engine.CheckIPLists | internal/core/engine.go:182-193 | with a store the lists decide and never report an error; without one an address is an error |
| Engine.Engine.ChargeInOrder | internal/core/engine.go:82-138 | the loop computes the fold over the rules, its early returns and its final decision |
| Engine.Engine.AllowRules | internal/core/engine.go:57-138 | the whole request, for every rule list, store, cache and failure |
| EngineVerdict.DistinctNamesSuffice | internal/core/engine.go:146-163 | rules with distinct ids never share a limiter key |
| EngineVerdict.LimiterKeysStandApart | internal/repo/redis.go:128-158 | no limiter key is a counter or ban key of any address |
| EngineVerdict.DenialTouchesNoLimiter | internal/core/engine.go:173-178 | recording a denial leaves every limiter key as it was |
| EngineVerdict.RulingIsLocal | internal/core/engine.go:146-179 | what a rule says depends on its own key only |
| EngineVerdict.ChargeLeavesOthers | internal/core/engine.go:165-178 | charging a rule, and recording its denial, leaves every other rule's key alone |
| EngineVerdict.LoopVerdict | internal/core/engine.go:86-137 | the loop decides as if every rule were judged on the store the request found |
| EngineVerdict.LoopCharges | internal/core/engine.go:86-121 | exactly the enabled rules up to and including the first stop are charged, each once |
| EngineVerdict.GatheredSums | internal/core/engine.go:97-120 | the gathered error flag, rule flag and least remaining are those of all the rules |
| EngineVerdict.Verdict | internal/core/engine.go:82-138 | allowed if and only if every enabled rule lets the request through; deny wins under fail-open; remaining is the least non-negative one |
| EngineVerdict.OrderIrrelevant | internal/core/engine.go:57-137 | on every request, permuting the rules changes neither the allowed bit nor, when allowed, anything in the decision |
| EngineVerdict.Charges | internal/core/engine.go:57-121 | on the whole request, which keys are charged, and that none is when the lists decide |
| Dims.HashDims | internal/util/dim.go:29-37 | the hash of the printed values in the rule's order, or nothing when one is missing |
| Dims.ExtractDims | internal/util/dim.go:19-25 | the request's values of the rule's dimensions, in order, a missing one empty |
| Dims.SpacelessApart | internal/util/dim.go:35-36 | printing loses nothing about values without spaces |
| Dims.TellsApartIff | internal/util/dim.go:35-36 | under a hash without collisions distinct dimensions tell all requests apart by their values if and only if there is at most one |
| EngineAnswers.SameBucketIff | internal/core/engine.go:146-163 | two requests share a rule's bucket if and only if their printed values of its dimensions are the same |
| EngineAnswers.OwnBuckets | internal/core/engine.go:146-163 | with at most one dimension or values without spaces they share it if and only if the values are the same |
| EngineAnswers.NeverSharesIff | internal/core/engine.go:146-163 | a rule with distinct dimensions never lets different values share a bucket if and only if it has at most one dimension |
| EngineAnswers.ListsDecide | internal/core/engine.go:66-80 | a barred address is refused and a welcome one allowed, whatever the rules say and without a charge; all others go to the rules |
| EngineAnswers.LeftOpenIff | internal/core/engine.go:66-80 | exactly when the lists leave a request to the rules |
| EngineAnswers.AllowedIff | internal/core/engine.go:57-138 | exactly which requests are allowed, in terms of cache, store and the rules' rulings |
| EngineAnswers.AllowedAnswer | internal/core/engine.go:123-137 | an allowed request is told no delay and, by its reason, whether a rule was enabled and whether anything failed |
| EngineAnswers.RefusedAnswer | internal/core/engine.go:98-114 | a refused request gets the answer of the first rule that does not let it through: its limiter's decision, or fail_closed with the error |
| EngineAnswers.ErrorIff | internal/core/engine.go:87-94 | the call itself returns an error only for a single disabled rule |
| EngineAnswers.StoreMissing | internal/core/engine.go:58-76 | fail-closed without a store, and no rules at all |
| EngineRuns.ServeSeesLive | internal/limiter/mux.go:44-54 | a limiter call cannot tell whether Redis has removed expired keys already |
| EngineRuns.RunAgrees | internal/core/engine.go:57-180 | after every run of whole requests on any number of nodes, with notifications and list changes among them, a triple's key holds what its own limiter calls alone would have left |
| EngineRuns.AllowedIsGranted | internal/core/engine.go:86-138 | the engine allows on account of a triple no more requests than the triple's limiter grants, not counting those the whitelist decides or fail-open lets through without reaching the key |
| EngineRuns.TokenBound | internal/core/engine.go:57-138 | in an interval of length D of such a run, the clock going forward, the engine allows on account of a token bucket triple at most limit + burst + D * limit / window requests |
| EngineRuns.LeakyBound | internal/core/engine.go:57-138 | for a leaky bucket triple fewer than q + 1 + D * limit / window |
| EngineRuns.SlidingBound | internal/core/engine.go:57-138 | for a sliding window triple touched at most m times per millisecond, at most m * min(limit, window) in any window |
| EngineBans.LoopMoves | internal/core/engine.go:86-180 | a request increments an address's counter only if it is of that address and refused as rate limited without an error, and writes the ban only if that fills the counter |
| EngineBans.RunBacked | internal/core/engine.go:173-178 | in every run of whole requests an address's counter is backed by as many refused requests of the address inside the counter's window |
| EngineBans.BansAreEarned | internal/core/iplist_cache.go:162-176 | a ban is written only when at least ten requests of the address, this one among them, were refused as rate limited within one minute that is still running |
| EngineBans.RefusalCounts | internal/core/engine.go:173-178 | every refused request whose counter can be reached adds one to it; from ten on it writes the ban for ten minutes, before it does not |
| EngineBans.BanLasts | internal/core/iplist_cache.go:94-106 | a ban in force stays as it is until it runs out, in every run of whole requests |
| EngineBans.TenthIsBanned | internal/core/iplist_cache.go:143-177 | after the tenth refusal of an address within its counter's minute every request of it is refused for ten minutes, on every node and whatever happens meanwhile |
| Quota.QuotaCounters.Charge | internal/core/quota.go:41-69 | on what Redis still holds, both counters move or neither does; reply, scope and least remaining under both limits |
| Quota.ReadsTrueCount | internal/core/quota.go:48-49 | a request whose clock lags no more than the slack and a millisecond behind any earlier one, of whatever tag, finds its bucket's true count |
| Quota.CountersCount | internal/core/quota.go:48-62 | in every such run each tag's counter holds its bucket's admissions and lives as long as it is sure to |
| Quota.QuotaIsExact | internal/core/quota.go:51-56 | with a clock that lags at most 600 001 ms, over the requests of all tags, a request is admitted if and only if its tag's hour and day have room |
| Quota.AnswerInCounts | internal/core/quota.go:48-68 | what a request is told, in the counts of its hour and day: least room left, or the first full bucket and its count |
| Quota.Conserved | internal/core/quota.go:51-56 | no calendar hour or day admits more under a tag than its limit as long as no request of any tag lags more than the slack and a millisecond |
| Quota.ToleranceIff | internal/core/quota.go:61-62 | and that is exactly the tolerance: 600 001 ms for an hour and 3 600 001 ms for a day; one millisecond more and it can be overdrawn |
| Quota.RewindOverdraws | internal/core/quota.go:48-62 | the run that overdraws: a bucket's first request, one of any tag just after its counter expired, one back at the bucket's end |
| Quota.DayIsSumOfHours | internal/core/quota.go:58-59 | a day's count is the sum of its hours' counts |
| Quota.RetryLandsOnNextBucket | internal/core/quota.go:207-218 | the delay ends on the next bucket's first instant if and only if the clock reading was a whole millisecond, else in the last millisecond of the same bucket |
| Quota.RetryAdmittedIff | internal/core/quota.go:207-238 | coming back after exactly the announced delay, other tags being charged meanwhile, is admitted if and only if the clock reading was a whole millisecond and the day then has room |
| Quota.FractionDenied | internal/core/quota.go:207-218 | denied a nanosecond into an hour, a caller comes back in the last millisecond of that hour and is denied again |
| Quota.ExhaustedDayDenied | internal/core/quota.go:51-56 | a caller whose hour and day are both exhausted is told the hour, comes back in the next hour and is denied |
| RuleCache.Cache.ReplaceAll | internal/rules/cache.go:167-173 | a new set becomes current; sets already loaded are untouched |
| RuleCache.Cache.Upsert | internal/rules/cache.go:130-153 | store, copied set and notification, with every failure point |
| RuleCache.Cache.ReloadAll | internal/rules/cache.go:56-92 | for every listing and store, with vanished, unreadable, malformed and foreign entries: the rules read become current; a failed scan keeps the old set |
| RuleCache.ReloadedPlain | internal/rules/cache.go:69-82 | on rules stored under their own names a reload keeps those listed and readable |
| RuleCache.ReloadedKeyed | internal/rules/cache.go:69-86 | whatever is stored under whatever keys, a reload shows the rules it read under their own names, of several with one name the last one read |
| RuleCache.CompleteIff | internal/rules/cache.go:56-92 | it shows exactly the stored rules if and only if every stored key is listed and readable |
| RuleCache.BuildRuleMap | internal/rules/cache.go:176-185 | unnamed rules are dropped, of equal names the last one counts |
| RuleCache.RuleMapKeyed | internal/rules/cache.go:176-185 | the map has exactly the non-empty names of the list, each with the last rule of that name |
| RuleSync.StepKeepsCoherent | internal/rules/cache.go:56-153 | every sub-step of Upsert and reload, and every fault, keeps each node up to date or owed a reload |
| RuleSync.RunKeepsCoherent | internal/rules/cache.go:56-153 | so does every interleaving |
| RuleSync.QuietNodesAgree | internal/rules/cache.go:115-153 | whenever nothing is under way, every node no fault has left behind holds Redis's rules |
| RuleSync.Convergence | internal/rules/cache.go:115-153 | without faults, whenever nothing is under way, every node holds Redis's rules, whatever overwrote what before |
| RuleSync.HelpfulStepsCloser | internal/rules/cache.go:115-153 | merely finishing what was begun cannot go on for ever |
| RuleSync.SomethingHelps | internal/rules/cache.go:115-153 | until the system has settled there is something left to finish |
| RuleSync.Settles | internal/rules/cache.go:115-153 | finishing everything leads to a settled system with Redis's rules everywhere |
| RuleSync.AlwaysSettles | internal/rules/cache.go:115-153 | that holds after any run, faults included |
| RuleSync.UpsertAlone | internal/rules/cache.go:130-153 | the four sub-steps of an undisturbed Upsert store, show and announce the rule |
| RuleSync.RedisKeepsAll | internal/rules/cache.go:130-137 | after any run, faults included, Redis holds what was set last under each name |
| RuleSync.StaleCopyLoses | internal/rules/cache.go:139-148 | of two updates of one node that have both loaded its snapshot the one that replaces it last undoes the other's rule there |
| Poller.Poller.Pull | internal/rules/poller.go:73-95 | rules and version after a successful, skipped or failed fetch; already-loaded sets never change |
| Poller.Poller.HandleFailure | internal/rules/poller.go:97-101 | fail-closed drops the rules, any other policy keeps them |
| Poller.UpToDateIff | internal/rules/poller.go:73-101 | the expected rules are in force throughout if and only if no fetch repeats the last version with other rules than those expected |
| Poller.LastGood | internal/rules/poller.go:73-101 | unless fail-closed, an honest source's last good rules stay in force |
| Poller.FailClosedForgets | internal/rules/poller.go:97-101 | under fail-closed a failure followed by the same version leaves no rules |
| Trie.TrieNode.Descend | internal/router/snapshot.go:30-38 | one step of the walk finds or creates the child; every other node keeps its place and its rules |
| Trie.TrieNode.Insert | internal/router/snapshot.go:27-41 | the insertion is recorded, the tree shape is kept, all existing nodes stay where they were |
| Trie.TrieNode.Match | internal/router/snapshot.go:43-62 | the rules of all prefixes of the path, by prefix length and then insertion order |
| Trie.HitsArePrefixed | internal/router/snapshot.go:43-62 | those are precisely the inserted rules whose prefix is a prefix of the path, each insertion once |
| Trie.HitsInOrder | internal/router/snapshot.go:43-62 | by prefix length, and those of one prefix in the order they were inserted |
| RouteOrder.BeforeIsTotal | internal/router/matcher.go:56-61 | the comparison is a strict order that leaves only equal priority and id undecided |
| RouteOrder.LessIff | internal/router/matcher.go:57-59 | ids are compared lexicographically: the first differing character decides, or the end of the shorter id |
| RouteOrder.OrderedByPriority | internal/router/matcher.go:56-61 | in order means by descending priority, and within one priority by id |
| RouteOrder.SortOrders | internal/router/matcher.go:56-61 | sorting permutes the rules and puts them in order |
| RouteOrder.SortIsStable | internal/router/matcher.go:56-61 | undecided rules keep their order |
| RouteOrder.OrderIsUnique | internal/router/matcher.go:56-61 | without ties there is one ordered arrangement of the same rules |
| RouteIndex.PatternOf | internal/router/snapshot.go:75-85 | an indexed prefix or exact path is never empty |
| RouteIndex.RouteSnapshot.Add | internal/router/snapshot.go:72-85 | one rule goes to the one place its pattern asks for, a disabled one nowhere |
| RouteIndex.BuildRouteSnapshot | internal/router/snapshot.go:65-88 | whatever order the map is gone through, the index holds exactly its enabled rules |
| Router.MatchMethod | internal/router/matcher.go:86-98 | true if the list is empty or names the method or everything, up to spaces and case |
| Router.AppliesIff | internal/router/matcher.go:66-105 | when a rule applies, in its own fields: enabled, method and client up to case and spaces, pattern empty, equal to the path, or a prefix of it before a star |
| Router.FilterRules | internal/router/matcher.go:66-84 | the enabled rules that accept method and client, in order |
| Router.Collect | internal/router/matcher.go:41-54 | the lookups in map, trie and list, filtered and joined |
| Router.Matcher.constructor | internal/router/matcher.go:26-31 | starts from the given index or from an empty one |
| Router.Matcher.Replace | internal/router/matcher.go:33-38 | switches to the given index or to an empty one |
| Router.Matcher.Match | internal/router/matcher.go:41-64 | by descending priority and then by id, and every rule as often as the rule map holds it if it applies, not at all if it does not |
| Router.IndexIsNaive | internal/router/matcher.go:48-54 | for every path, the empty one included, the lookup finds exactly what checking every rule in turn finds |
| Router.EachOnce | internal/router/matcher.go:41-64 | the same, counted on the rule map for every order of going through it |
| Router.NeverTied | internal/router/matcher.go:56-61 | for rules listed under their own names no two results are tied |
| Router.MatchingIsDeterministic | internal/router/matcher.go:41-64 | then a request gets the same rules in the same order for every map iteration order |
| Router.BuiltMapsAreKeyed | internal/rules/cache.go:176-185 | rule maps built from a list satisfy that premise |

## Left out

- Scripts.SameMachineIff: compares the two token scripts on a stored bucket; a hash that lacks one of its two fields, which neither script leaves behind, counts as a full bucket for one and not for the other.
- Limiters.Mux.constructor: the panic on an empty limiter map is a precondition, and nil limiters are not modelled.
- Limiters.TokenBucketAllow: 64-bit wrap-around is modelled for the doubled window only; other sums and products are unbounded.
- EngineRuns.AllowedIsGranted: the mux holds the three limiters of main under their usual names, and a triple is always charged under the same rule.
- Engine.Engine.constructor: the limiter is a mux over the three limiters, with any names; other implementations of the interface, and with them the fallback reason for a limiter that gives none, are not modelled.
- Engine.Engine.AllowRule: the error texts of a missing dimension and of an unknown algorithm leave out the name concerned.
- Engine.Engine.CheckIPLists: the direct Redis lookups for an engine with a store and no list cache are not modelled, because the constructor never builds one.
- Engine.Engine.AllowRules: all steps of one request read one clock value; the list cache's own clock calls in the code may drift by the request's duration.
- Quota.QuotaCounters.Charge: a counter key is a value (scope, tag, bucket) instead of a formatted string.
- RouteOrder.SortOrders: `sort.SliceStable` is modelled by stable insertion on values; the library's in-place merging is not.
- IEEE-754 rounding in Lua and Go, and the conversion of numbers to and from Redis strings.
- Malformed script replies (`invalid_script_response`, `lua_invalid_res`): the modelled scripts always reply in shape.
- Redis client behaviour: timeouts, retries, cluster routing, replica reads, eviction under memory pressure.
- Loss and delay of address-list notifications beyond arbitrary scheduling: a cleared cache is the event `Told`, which may come at any time or never.
- Bootstrap of rules and the gap before a node subscribes: the protocol starts with every node bootstrapped and subscribed.
- `Cache.Resolve`, whose fallback depends on map iteration order by design.
- The Sentinel breaker and the random warm-up throttling in front of the quota.
- `PerMinute` quotas and the breaker settings of a rule, which no code implements.
- The quota in time zones other than UTC, and daylight saving.
- HTTP handlers, JSON and YAML, Nacos, configuration loading, logging and the identity resolver.
- Unicode trimming and case folding, and decoding of invalid UTF-8.
- The FNV hash itself: it is a parameter, and two requests with equal hashes are one triple here.
