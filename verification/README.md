# Anicetus, verified

Anicetus keeps a thundering herd away from a backend. Requests are grouped by fingerprint. A detector (a token bucket per
fingerprint) says whether a group has become a herd; a gatekeeper then chooses one request of the herd to lead, makes the
others wait, and lets everybody through once the leader is done; a cooldown follows. This project models the state
machines behind that and proves what they promise together.

| Files | What they hold |
|---|---|
| `Rate` | the limiter: a token bucket with future reservations, cancellation, and a penalty that drains it on a refusal |
| `RateScale` | the same limiter in nanoseconds, where one nanosecond adds one unit and every operation is linear |
| `RateRefill`, `RateCancel`, `RateReserve`, `RateAllow`, `RatePenalty` | runs of the limiter: lazy refilling, cancelling, conformance of reservations, admission, the penalty |
| `MapExp`, `MapExpRuns`, `MapExpSteps` | the expiring map and its queue: in place, in runs of atomic calls, and under its two locks |
| `Detector`, `DetectorRuns` | the in-memory detector, and when forgetting idle limiters cannot be noticed |
| `RedisBucket`, `RedisBucketRuns` | the Lua script, when it agrees with the in-memory detector, and when dropping its key shows |
| `Anicetus`, `AnicetusRuns`, `HerdElection` | storage, gatekeeper and `Evaluate` as atomic calls whose operations can fail; what history determines; who leads a sustained herd |
| `Protocol`, `Handler` | any number of interleaved requests with failing operations; one request served on its own |
| `Wrappers` | optional values and results |

What the source changes in place is a class here (`Limiter`, `ExpirationQueue`, `ExpiringMap`, `TokenBucketInMemory`,
`RedisKey`, `InMemory`, `Gatekeeper`, `Anicetus`). Storage and detector are interfaces in the source, whose operations can
fail: `GatekeeperStorage` and `FallibleDetector` do what the in-memory ones do, except that each operation is told whether
it fails and, if so, whether it takes effect. Each method is proved to take the state to a function of the
old state, and the theorems are about those functions, over all runs. `dafny verify dfyconfig.toml` checks everything.

## Hypotheses

- float64 is exact real arithmetic; its conversion to a duration truncates, as in Go. A limit is `Inf` or a rate; the
  theorems with `Positive` are about finite positive rates (in the source a rate of `math.MaxFloat64` is `Inf`).
- Times are nanoseconds since the zero time, durations nanoseconds. Every call is given the times its clock readings
  return. Times of calls do not decrease where a lemma says so.
- The in-memory detector reads the clock when it looks for a limiter and again when it draws from it
  (`internal/mapexp/expiration_queue.go:38-48`, `internal/rate/rate.go:111`). The two readings are kept apart everywhere.
  `Evaluate` looks into the map of cooldowns and into that of limiters at one time.
- An operation that fails has taken effect or not. The theorems of `AnicetusRuns` and `Protocol` are about all such runs;
  where nothing may fail the lemma says so.
- The script learns the time in whole microseconds. Redis counts the seconds of EXPIRE from that time, and drops the key
  at any time from its deadline on, or never.
- A fingerprint is a key with equality. It is computed again after the request was forwarded, which sets host and scheme
  of its URL (`internal/http/request.go:56-57`). With the fields that the server takes by default it is the same as
  before, provided the request names a host; the library's own default fields include the scheme, so there it is not
  (`fingerprint/http_request.go:107-114`, `fingerprint/http_request.go:149-158`). `Protocol` and `Handler` take both.
- Theorems about the detector take a positive interval and a burst of at least one.

## Findings

Places where the code does not do what one could expect. Each has a lemma with a run that shows it, and beside it one that
says when it does not happen.

- The usual bounds of a token bucket, on what is admitted and on what is reserved, hold exactly for the limits made by
  `Every` and for no others: for any other limit, truncating waits to whole nanoseconds lets a fraction of a token through
  (`RateAllow.AdmitsExactlyIffEvery`, `RateReserve.ConformsExactlyIffEvery`). The same limits are those for which the
  penalty never leaves a bucket with more than it would have had, and never brings about a grant
  (`RatePenalty.NeverAheadIffEvery`, `RatePenalty.GrantsNoMoreIffEvery`).
- Call times that go back let the time between accrue twice (`RateAllow.RewindingBreaksTheBoundIff`). A call makes tokens
  out of nothing exactly as `RateAllow.CallMakesNothingIff` says, and a run never more than accrue in the time it goes
  back (`RateAllow.AdmissionIsBoundedInAnyOrder`).
- Waits cut off at the longest duration break the bound on reservations, for every limit
  (`RateReserve.CappedWaitsBreakTheBound`). It holds as long as the last wait is not cut off
  (`RateReserve.ReservationsConform`), and `RateReserve.UnitCallsConformIff` shows that it takes that.
- Two reservations cancelled in reverse need not give back what they took (`RateCancel.InnerCancelCanLoseTokens`); they do
  as `RateCancel.InnerCancelLeavesOuterExactIff` says.
- A renewed entry of the expiring map keeps its place in the queue, so it delays the removal of expired entries behind it
  (`MapExpRuns.RenewalDelaysOthers`, `MapExpRuns.PurgeIsExactIff`).
- With the two locks of the map taken one after the other, a value that was set just now can be lost to a purge, leaving
  its entry in the queue: to one that had taken the key before (`MapExpSteps.PurgeCanTakeAFreshValue`), or to one that
  starts between the two halves of `Set` (`MapExpSteps.PurgeCanComeBetween`). From the second half on a value is safe for
  its time to live, unless a purge then has its key in hand (`MapExpSteps.SetIsSafeIff`).
- The in-memory detector keeps limiters for `interval * burst`, which is exactly long enough if no time passes between its
  two readings of the clock, and too short if any does (`DetectorRuns.EvictionIsInvisible`). How long is needed for a given
  delay is `DetectorRuns.KeepFor` (`DetectorRuns.EvictionIsInvisibleIff`).
- A refused call does not prolong the life of the Redis key, so a herd that keeps calling finds a full bucket when the key
  is dropped, where the in-memory detector still refuses (`RedisBucketRuns.DropAfterRefusalShows`). That can happen just
  when a token takes more than a microsecond (`RedisBucketRuns.DropsGoUnnoticedIff`).
- The README of the repository says that a single request passes during a herd. Two can lead at once. Either both look
  before either stores (`Protocol.TwoLeadByLooking`); or a request that was evaluated before the herd removes the entry of
  a leader, since an evaluation that sees no herd removes without looking (`Protocol.TwoLeadByRemoval`). There is no third
  way, but for the entry being removed by a leader that gives up (`Protocol.TwoLeadOnlyIf`,
  `Protocol.SecondLeaderOnlyIf`); and whether a read finds nothing depends on that alone (`Protocol.FindsNothingIff`).
- That README says that the detector rests for a while after a herd. Every evaluation renews the cooldown, so it lasts as
  long as requests keep coming (`AnicetusRuns.CooldownNeverEndsEarly`); and it ends with a purge, which comes late if an
  entry before it is still alive (`AnicetusRuns.PurgeEndsCooldownIff`, `AnicetusRuns.CooldownsEndInQuiet`).
- A leader that fails and cannot remove its entry leaves it pending with nobody to replace it; so does a first write that is
  reported as failed but was made; and so does a leader whose fingerprint has changed by the time it is done
  (`Protocol.FailedRemovalCanOrphan`, `Protocol.FirstWriteCanOrphan`, `Protocol.MovedKeyCanOrphan`). Nothing else does
  (`Protocol.StepKeepsNoOrphansIff`). Such an entry lasts until an evaluation that sees no herd removes it, or another
  leader of that fingerprint finishes or gives up (`Protocol.PendingLastsIff`, `Protocol.CalmEvaluationRemoves`); until
  then the whole herd is told to wait (`Protocol.HerdWaitsWhilePending`).

## Model

| member | source | states |
|---|---|---|
| `Rate.TokensAt` | internal/rate/rate.go:402-416 | in no state is more available than the burst, also after `SetBurstAt` made it smaller than what is stored |
| `Rate.Limiter.constructor` | internal/rate/rate.go:101-107 | a new limiter is full |
| `Rate.Limiter.Advance` | internal/rate/rate.go:402-416 | brings tokens up to date without changing the limiter |
| `Rate.Limiter.ReserveN` | internal/rate/rate.go:343-397 | a reservation and the new state, with the penalty on a refusal |
| `Rate.Limiter.AllowN` | internal/rate/rate.go:117-119 | whether the call is granted without waiting, and what it leaves |
| `Rate.Limiter.CancelAt` | internal/rate/rate.go:170-205 | the state after a reservation is given back |
| `Rate.Limiter.SetLimitAt` | internal/rate/rate.go:312-321 | what accrued so far is settled at the old limit |
| `Rate.Limiter.SetBurstAt` | internal/rate/rate.go:329-338 | what accrued so far is settled under the old burst |
| `RateScale.PeriodOfEvery` | internal/rate/rate.go:26-31 | with `Every(interval)` a token accrues in exactly `interval` |
| `RateScale.WholePeriodIsEvery` | internal/rate/rate.go:26-31 | the limits whose tokens take a whole number of nanoseconds are those made by `Every` |
| `RateScale.AccrualIsOnePerNano` | internal/rate/rate.go:437-442 | on the nanosecond scale time accrues one for one, for every positive limit |
| `RateScale.WaitIsTruncatedDeficit` | internal/rate/rate.go:420-433 | the duration of a number of tokens is that number on the scale, truncated and cut off at the longest duration |
| `RateScale.LevelGrowsLinearly` | internal/rate/rate.go:402-416 | the level at a time is the stored one plus elapsed nanoseconds, up to the capacity |
| `RateScale.ReserveInNanos` | internal/rate/rate.go:343-397 | a reservation in linear terms: whether it is granted, when it may act, what it leaves |
| `RateScale.ActsWhenPaidIff` | internal/rate/rate.go:427-430 | a reservation may act when its tokens are there, to the whole nanosecond, if and only if what is missing takes less than a nanosecond more than the longest duration |
| `RateScale.AllowInNanos` | internal/rate/rate.go:343-397 | a call is granted just when it fits the burst and less than a nanosecond is missing |
| `RateRefill.RefillIsPathIndependent` | internal/rate/rate.go:402-416 | advancing to a time and then on is advancing at once |
| `RateRefill.SettingsTakeEffectFromThen` | internal/rate/rate.go:312-338 | after `SetLimitAt` and `SetBurstAt`, the tokens at every later time, from what they were by then |
| `RateRefill.LimitIsPerSecond` | internal/rate/rate.go:437-442 | a limit is the tokens that 10^9 nanoseconds bring |
| `RateRefill.StoppedNeverRefills` | internal/rate/rate.go:420-442 | a limit that is not positive brings nothing: a call is granted if and only if its tokens are there |
| `RateRefill.InfiniteIsNeverRefused` | internal/rate/rate.go:347-354 | `Inf` grants everything at once and leaves the limiter alone; it is what `Every` makes of an interval if and only if that is not positive |
| `RateRefill.IndistinguishableRun` | internal/rate/rate.go:170-205 | limiters that agree on limit, burst, last event and all later tokens answer every run of reservations, cancellations and settings alike |
| `RateRefill.SettingTheSameValueIsUnobservable` | internal/rate/rate.go:312-338 | setting the limit or burst to what it is changes no later answer and no later tokens |
| `RateCancel.CancelAtOldLimit` | internal/rate/rate.go:170-205 | what a cancellation restores, and when it does nothing, for a reservation made at another limit than the limiter has now |
| `RateCancel.CancelInNanos` | internal/rate/rate.go:170-205 | the same in linear terms, at a limit that was not changed |
| `RateCancel.CancelIsExactUndo` | internal/rate/rate.go:170-205 | cancelling the latest reservation makes all later tokens as if it had not been made, if and only if it comes by `timeToAct` or the bucket has refilled anyway |
| `RateCancel.OwingUnwinds` | internal/rate/rate.go:170-205 | on an empty or indebted bucket, any nest of reservations cancelled in reverse leaves the debt and `lastEvent` it found |
| `RateCancel.CancellingInReverseIsExactUndo` | internal/rate/rate.go:170-205 | any number of reservations, made on a bucket left without free tokens and cancelled in reverse, are undone exactly; for limits with a whole period |
| `RateCancel.InnerCancelLeavesOuterExactIff` | internal/rate/rate.go:170-205 | for any limit, an inner cancellation leaves the outer reservation exactly cancellable if and only if the two `timeToAct` are the truncated duration of the inner tokens apart |
| `RateCancel.InnerCancelCanLoseTokens` | internal/rate/rate.go:196-204 | a limit and two reservations for which it is not |
| `RateReserve.ActTimesDoNotDecrease` | internal/rate/rate.go:228-231 | in every run of `ReserveN`, holders may act in the order they reserved |
| `RateReserve.ReservationsConform` | internal/rate/rate.go:343-397 | the tokens reserved by any stretch of any run are within the burst and what accrues between the first and the last `timeToAct`, exactly on whole periods, and else within one nanosecond's worth, if the last wait is not cut off |
| `RateReserve.ConformsExactlyIffEvery` | internal/rate/rate.go:420-433 | that bound is exact if and only if the limit is made by `Every` |
| `RateReserve.OneMoreThanTheBurst` | internal/rate/rate.go:420-433 | for any other limit there is a run that exceeds it |
| `RateReserve.UnitCallsConformIff` | internal/rate/rate.go:427-430 | for every limit, any number of single tokens reserved at one instant on a new limiter keep to the bound if and only if the last wait is not cut off |
| `RateReserve.CappedWaitsBreakTheBound` | internal/rate/rate.go:427-430 | for every limit and burst there is such a run from a new limiter that breaks it |
| `RateAllow.RunStaysSound` | internal/rate/rate.go:343-397 | runs of `AllowN` never owe a nanosecond's worth or more |
| `RateAllow.GrantsAreConserved` | internal/rate/rate.go:343-397 | what is granted was in the bucket or flowed in; each refusal forgives less than a nanosecond's worth |
| `RateAllow.AdmissionIsBoundedInAnyOrder` | internal/rate/rate.go:402-416 | in every window of every run, with call times in any order, at most burst, inflow and what accrues in the time the calls go back are granted |
| `RateAllow.AdmissionIsBounded` | internal/rate/rate.go:343-397 | in every window of every ordered run at most burst and inflow are granted, exactly on whole periods, and else within a nanosecond's worth and one more per refusal |
| `RateAllow.AdmitsExactlyIffEvery` | internal/rate/rate.go:420-433 | the bound is exact if and only if the limit is made by `Every` |
| `RateAllow.CallMakesNothingIff` | internal/rate/rate.go:402-406 | for every limit and state, a granted call makes no tokens if and only if its time is not before the last; a refused one if and only if it goes back for no longer than the tokens it wiped out take |
| `RateAllow.RewindingBreaksTheBoundIff` | internal/rate/rate.go:403-406 | for every limit and every distance, a run that goes back once is granted more than the burst in no time if and only if the distance is long enough, and how much |
| `RatePenalty.PenaltyOnlyTightens` | internal/rate/rate.go:385-394 | in every run the penalised bucket has no more than one without the penalty and grants no call that one refuses; for limits not made by `Every` it is ahead by less than a nanosecond's worth |
| `RatePenalty.NeverAheadIffEvery` | internal/rate/rate.go:385-394 | the penalised bucket is never ahead, in any run, if and only if the limit is made by `Every` |
| `RatePenalty.GrantsNoMoreIffEvery` | internal/rate/rate.go:385-394 | the penalised limiter grants no call that one without the penalty refuses, in any run, if and only if the limit is made by `Every` |
| `RatePenalty.WipedDebtGrants` | internal/rate/rate.go:385-394 | for any other limit there is a run with such a call |
| `RatePenalty.PenaltyForgivesAFraction` | internal/rate/rate.go:385-394 | for any other limit there is a run after which it is ahead |
| `RatePenalty.NextGrantAfterRefusal` | internal/rate/rate.go:385-394 | after a refusal the next call is granted if and only if the time of one token has passed since |
| `RatePenalty.RefusalsLastUntilAGap` | internal/rate/rate.go:385-394 | a streak of refusals lasts precisely until the first gap of that length |
| `MapExp.ExpirationQueue.constructor` | internal/mapexp/expiration_queue.go:19-23 | the queue starts empty |
| `MapExp.ExpirationQueue.Add` | internal/mapexp/expiration_queue.go:25-40 | a key has its one entry at the end, with a new expiration |
| `MapExp.ExpirationQueue.Renew` | internal/mapexp/expiration_queue.go:42-52 | the entry of a key is extended where it stands; no entry appears |
| `MapExp.ExpirationQueue.Purge` | internal/mapexp/expiration_queue.go:54-72 | the prefix up to the first entry alive is removed and its keys returned |
| `MapExp.ExpiringMap.constructor` | internal/mapexp/map.go:18-25 | the map and its queue start empty |
| `MapExp.ExpiringMap.Set` | internal/mapexp/map.go:28-34 | value and expiration of the key are set, other keys unchanged |
| `MapExp.ExpiringMap.Get` | internal/mapexp/map.go:37-44 | answers the value, and extends the expiration |
| `MapExp.ExpiringMap.Delete` | internal/mapexp/map.go:47-51 | the value goes, the entry in the queue stays |
| `MapExp.ExpiringMap.PurgeExpired` | internal/mapexp/map.go:65-71 | exactly the keys the queue gave up are deleted; what that is of the map, `MapExpRuns.PurgeRemovesIff` says |
| `MapExpRuns.AddedDeadline` | internal/mapexp/expiration_queue.go:25-40 | adding a key sets its deadline and no other |
| `MapExpRuns.RenewedDeadline` | internal/mapexp/expiration_queue.go:42-52 | renewing moves the deadline of a key that has one and no other |
| `MapExpRuns.PurgedDeadline` | internal/mapexp/expiration_queue.go:54-72 | a purge takes expired keys only and leaves all other deadlines |
| `MapExpRuns.GetAnswersLatestValue` | internal/mapexp/map.go:28-44 | no early expiry: in every run, with purges at any times, a key touched at gaps below the time to live and not deleted answers its latest value |
| `MapExpRuns.GetNeverAnswersStaleValue` | internal/mapexp/map.go:28-51 | in every run a key answers its latest value or nothing |
| `MapExpRuns.PurgeIsExactIff` | internal/mapexp/expiration_queue.go:54-72 | a purge removes exactly the expired keys if and only if no expired entry stands behind one alive |
| `MapExpRuns.PurgeOfARun` | internal/mapexp/expiration_queue.go:25-72 | exact in runs without `Get`, never early in any, and everything goes once the time to live has passed since the last event |
| `MapExpRuns.PurgeRemovesIff` | internal/mapexp/map.go:65-71 | a purge removes a key from the map and from the queue if and only if its entry and all entries before it have expired |
| `MapExpRuns.RunsOutAfterLastTouch` | internal/mapexp/expiration_queue.go:25-52 | in every run an entry expires the time to live after its key was last touched, and every key of the map has one |
| `MapExpRuns.PurgedMapIsExact` | internal/mapexp/map.go:28-72 | in runs without `Get` a purged map holds the last value of each key set less than the time to live ago and not deleted, and nothing else |
| `MapExpRuns.QuietMapEmpties` | internal/mapexp/map.go:65-71 | in any run a purge after the time to live of all touches empties the map |
| `MapExpRuns.RenewalDelaysOthers` | internal/mapexp/expiration_queue.go:46-51 | a run in which an expired key survives a purge |
| `MapExpSteps.SetIsItsHalves` | internal/mapexp/map.go:28-34 | the two halves of `Set`, left alone, are the atomic call |
| `MapExpSteps.GetIsItsHalves` | internal/mapexp/map.go:37-44 | the two halves of `Get`, left alone, are the atomic call |
| `MapExpSteps.PurgeIsItsHalves` | internal/mapexp/map.go:65-71 | the two halves of a purge, left alone, are the atomic purge |
| `MapExpSteps.DeleteIsOneStep` | internal/mapexp/map.go:47-51 | a deletion takes the value of its key only |
| `MapExpSteps.ActionKeepsNoLeak` | internal/mapexp/map.go:28-72 | each half of a call and of a purge keeps every key of the map findable |
| `MapExpSteps.NoKeyLeaks` | internal/mapexp/map.go:28-72 | in every interleaving each key of the map is queued, about to be, or about to go; with no call half done, all are queued once, and a purge after the last expiration empties the map |
| `MapExpSteps.PurgeCanTakeAFreshValue` | internal/mapexp/map.go:65-71 | an interleaving that loses a value just set |
| `MapExpSteps.PurgeCanComeBetween` | internal/mapexp/map.go:28-34 | another, in which the purge starts between the two halves of `Set` |
| `MapExpSteps.ValueSurvivesIffNotDoomed` | internal/mapexp/map.go:65-71 | through any number of purges before its expiration, a key that others do not set or delete stays, with its value, if and only if the purge under way at first, if it ends, had not taken it |
| `MapExpSteps.SetIsSafeIff` | internal/mapexp/map.go:28-34 | in every interleaving, a value that is there at the second half of its `Set` is there until its time to live is over if and only if no purge that ends later had its key in hand then |
| `Detector.TokenBucketInMemory.constructor` | detector/tokenbucket_inmemory.go:24-38 | interval, burst and cooldown are those given; both maps start empty; limiters are kept for `interval * burst`, cooldowns for `cooldown` |
| `Detector.TokenBucketInMemory.CoolDown` | detector/tokenbucket_inmemory.go:41-44 | starts the cooldown of the fingerprint |
| `Detector.TokenBucketInMemory.IsCoolDown` | detector/tokenbucket_inmemory.go:47-50 | answers whether it is cooling down, and renews that |
| `Detector.TokenBucketInMemory.Install` | detector/tokenbucket_inmemory.go:56-57 | a new full limiter is kept for the fingerprint, shared with no other |
| `Detector.TokenBucketInMemory.Fetch` | detector/tokenbucket_inmemory.go:54-58 | finds or makes the limiter of the fingerprint, shared with no other |
| `Detector.TokenBucketInMemory.Draw` | detector/tokenbucket_inmemory.go:59 | a draw on one limiter leaves all others as they are |
| `Detector.TokenBucketInMemory.IsThunderingHerd` | detector/tokenbucket_inmemory.go:53-60 | the answer and the whole new state, over the heap of limiters, for any times of looking and of drawing |
| `Detector.TokenBucketInMemory.PurgeLimiters` | internal/mapexp/map.go:65-71 | a purge of the map of limiters, in terms of their values |
| `Detector.TokenBucketInMemory.PurgeCooldowns` | internal/mapexp/map.go:65-71 | a purge of the cooldowns, which leaves the limiters alone |
| `DetectorRuns.FullIsAsGoodAsNew` | detector/tokenbucket_inmemory.go:55-58 | a full limiter answers and goes on as a new one |
| `DetectorRuns.IdleLimiterFills` | detector/tokenbucket_inmemory.go:30 | a limiter unused for `interval * burst` is full |
| `DetectorRuns.KeptUntilFull` | detector/tokenbucket_inmemory.go:53-60 | kept for `KeepFor`, a limiter is full by the time it may be forgotten, however late within the delay the draw came |
| `DetectorRuns.RunTracks` | detector/tokenbucket_inmemory.go:53-60 | in every run the cached limiter is the one never forgotten and will be full when it may be purged, or is absent while that one is full |
| `DetectorRuns.EvictionIsInvisible` | detector/tokenbucket_inmemory.go:30-59 | a detector made for an interval and a burst gives every answer in every run as a limiter of its own for that interval and burst would that is never forgotten, if and only if draws are not later than the looking |
| `DetectorRuns.EvictionIsInvisibleIff` | detector/tokenbucket_inmemory.go:30-59 | for every delay, a period has that property if and only if it is at least `KeepFor`: for all calls for all fingerprints, and all purges, also between looking and drawing |
| `DetectorRuns.ShortPeriodShows` | detector/tokenbucket_inmemory.go:30 | for any shorter period there is a run with a different answer |
| `DetectorRuns.InUseIsNotForgotten` | detector/tokenbucket_inmemory.go:53-60 | a fingerprint looked for at gaps below the period is answered as by a limiter never forgotten, whatever the period and however late its calls draw |
| `DetectorRuns.PurgeForgetsIff` | internal/mapexp/map.go:65-71 | in every run a purge forgets a limiter if and only if its entry and all before it have run out, and keeps the others and the cooldowns as they are |
| `DetectorRuns.IdleCacheEmpties` | detector/tokenbucket_inmemory.go:30-34 | a purge a period after the latest look leaves no limiter |
| `RedisBucket.RedisKey.constructor` | detector/redigo/tokenbucket_redis.go:31-33 | a key that was never written |
| `RedisBucket.RedisKey.RunScript` | detector/redigo/tokenbucket_redis.go:30-60 | the answer, the hash and the deadline after the script, also if HMSET reports that it did not store |
| `RedisBucket.RedisKey.Drop` | detector/redigo/tokenbucket_redis.go:48 | what expiry leaves is a key that was never written |
| `RedisBucketRuns.CallStaysInStep` | detector/redigo/tokenbucket_redis.go:30-60 | script and limiter answer one call alike and stay alike |
| `RedisBucketRuns.LifetimeCoversRefill` | detector/redigo/tokenbucket_redis.go:48 | the lifetime of a key is the refill time of its bucket, rounded up to whole seconds |
| `RedisBucketRuns.DeadlineFollowsAllowedCalls` | detector/redigo/tokenbucket_redis.go:48 | in every run the deadline of a key is a lifetime after the last call that was allowed, whatever was refused since |
| `RedisBucketRuns.DetectorsAgree` | detector/redigo/tokenbucket_redis.go:25-60 | in every run the script answers as the in-memory detector does that draws at the same times, provided no key is dropped whose last call was refused |
| `RedisBucketRuns.DropKeepsAgreementIff` | detector/redigo/tokenbucket_redis.go:48 | dropping a key is never noticed afterwards if and only if a limiter not forgotten would be full by the next microsecond |
| `RedisBucketRuns.DropAfterRefusalShows` | detector/redigo/tokenbucket_redis.go:51-59 | for every interval above a microsecond, a run on whole microseconds after which the script grants what a limiter not forgotten refuses |
| `RedisBucketRuns.TicksMirror` | detector/redigo/tokenbucket_redis.go:27-48 | for all other intervals, a key present has a deadline that covers the refill since its last call |
| `RedisBucketRuns.DropsGoUnnoticedIff` | detector/redigo/tokenbucket_redis.go:25-60 | in no run that can be is a drop noticed, if and only if the interval is a microsecond at most |
| `Anicetus.InMemory.constructor` | storage/inmemory.go:19-21 | there are no entries at first |
| `Anicetus.InMemory.Exists` | storage/inmemory.go:24-27 | whether there is an entry |
| `Anicetus.InMemory.Processed` | storage/inmemory.go:30-36 | whether there is an entry marked as processed |
| `Anicetus.InMemory.Store` | storage/inmemory.go:39-42 | sets one entry |
| `Anicetus.InMemory.Remove` | storage/inmemory.go:45-48 | removes one entry, if there |
| `Anicetus.GatekeeperStorage.constructor` | gatekeeper.go:57-67 | a storage over the in-memory one, whose operations can fail |
| `Anicetus.GatekeeperStorage.Exists` | gatekeeper.go:58-59 | whether there is an entry, or an error |
| `Anicetus.GatekeeperStorage.Processed` | gatekeeper.go:60-61 | whether the entry is marked as processed, or an error |
| `Anicetus.GatekeeperStorage.Store` | gatekeeper.go:62-63 | sets one entry, or fails and may have set it |
| `Anicetus.GatekeeperStorage.Remove` | gatekeeper.go:64-66 | removes one entry, or fails and may have removed it |
| `Anicetus.Gatekeeper.constructor` | gatekeeper.go:15-19 | the gatekeeper works on the storage it is given |
| `Anicetus.Gatekeeper.Analyze` | gatekeeper.go:22-42 | lead if there is no entry, which is then pending; else pass or wait as the entry says; fail if an operation does |
| `Anicetus.Gatekeeper.Store` | gatekeeper.go:46-48 | sets one entry, or fails |
| `Anicetus.Gatekeeper.Remove` | gatekeeper.go:52-54 | removes one entry, or fails |
| `Anicetus.FallibleDetector.constructor` | anicetus.go:72-76 | a detector over the in-memory one, whose operations can fail |
| `Anicetus.FallibleDetector.IsCoolDown` | anicetus.go:74 | what the in-memory detector answers, or an error |
| `Anicetus.FallibleDetector.IsThunderingHerd` | anicetus.go:75 | what the in-memory detector answers, or an error |
| `Anicetus.FallibleDetector.CoolDown` | anicetus.go:73 | starts the cooldown, or fails and may have started it |
| `Anicetus.EvaluateFailsIff` | anicetus.go:26-48 | an evaluation is answered Failed if and only if an operation that it makes fails, and what entry it can leave then |
| `Anicetus.Anicetus.constructor` | anicetus.go:17-22 | detector and storage are those it is given |
| `Anicetus.Anicetus.Evaluate` | anicetus.go:26-48 | status and whole new state of detector and storage, for all outcomes of all operations |
| `Anicetus.Anicetus.Judge` | anicetus.go:36-47 | the same for a fingerprint that is not cooling down |
| `Anicetus.Anicetus.Gate` | anicetus.go:39-47 | the entry and the status, given what the detector found |
| `Anicetus.Anicetus.RequestDone` | anicetus.go:52-60 | the entry is processed, and if that did not fail the fingerprint cools down |
| `Anicetus.Anicetus.Cleanup` | anicetus.go:64-69 | the entry is removed, or not if that fails; the detector is untouched |
| `AnicetusRuns.EntryFollowsHistory` | anicetus.go:26-69 | in every run, whichever operations fail, the entry is absent, pending or processed as the last of the deciding events says |
| `AnicetusRuns.AnswersFollowHistory` | gatekeeper.go:22-42 | a herd waits if and only if a leader was announced last, passes if and only if one finished last, and is led if and only if the way was cleared last or nothing was decided |
| `AnicetusRuns.LeadersAreSeparated` | anicetus.go:39-45 | between two leaders lies a cleanup or an evaluation without a herd |
| `AnicetusRuns.CooldownsAreAnExpiringMap` | detector/tokenbucket_inmemory.go:41-50 | the cooldowns of a run are those of an expiring map that is set by `RequestDone` and read by `Evaluate` |
| `AnicetusRuns.CooldownNeverEndsEarly` | anicetus.go:29-34 | with a detector made for a cooldown, an evaluation less than that after the last renewal passes, unless it cannot learn of the cooldown, and touches neither limiters nor entries, whatever was purged; it renews the cooldown |
| `AnicetusRuns.PurgeEndsCooldownIff` | internal/mapexp/map.go:65-71 | in every run a purge ends the cooldown of a fingerprint if and only if its entry and all before it have run out |
| `AnicetusRuns.CooldownsEndInQuiet` | detector/tokenbucket_inmemory.go:33-50 | a purge that comes the cooldown after all that starts or renews one ends all of them |
| `AnicetusRuns.PurgedCooldownsAreExact` | detector/tokenbucket_inmemory.go:33-50 | without evaluations in between, a purge leaves cooling down exactly the fingerprints done less than the cooldown ago |
| `HerdElection.GrantsBeforeRefusal` | internal/rate/rate.go:343-397 | at least the burst, and at most the burst and one per full interval, are granted before the first refusal |
| `HerdElection.HerdSeenWhenRefused` | anicetus.go:36-39 | amid all other traffic a herd is seen just when the fingerprint's own limiter refuses, if limiters are kept for `KeepFor` |
| `HerdElection.HerdSeenWhileSustained` | anicetus.go:36-39 | and also, however long calls take, as long as the fingerprint is looked for at gaps below the interval |
| `HerdElection.SustainedRunElects` | anicetus.go:26-48 | the statuses of a sustained run and the entry it leaves, for any period of at least the interval |
| `HerdElection.SustainedHerdElectsOneLeader` | anicetus.go:26-48 | with a detector made for an interval and a burst, sustained in the times of looking and of drawing, some pass, then exactly one leads and all later ones wait; how many pass is bounded by them from both sides |
| `Protocol.StepKeepsNoOrphansIff` | internal/http/handlers.go:51-73 | a step keeps a request in flight behind every pending entry if and only if it is not one of three kinds that abandon an entry |
| `Protocol.NoOrphanedPendingEntry` | internal/http/handlers.go:51-73 | in every interleaving without those three, a pending entry belongs to a request in flight, which stored it last; none remains when all have finished |
| `Protocol.FailuresThatOrphan` | internal/http/handlers.go:67-71 | in any state, a failed removal and a first write wrongly reported as failed leave a pending entry with nobody behind it |
| `Protocol.FirstWriteCanOrphan` | gatekeeper.go:37-39 | a run from the start that ends so by the write |
| `Protocol.FailedRemovalCanOrphan` | internal/http/handlers.go:61-72 | a run from the start that ends so by the removal |
| `Protocol.MovedKeyCanOrphan` | internal/http/request.go:56-57 | a run from the start that ends so by a change of fingerprint |
| `Protocol.MovedKeyOrphansIff` | internal/http/request.go:56-99 | left alone a leader leaves its entry pending if and only if its fingerprint is another when it is done, or neither the write nor the removal takes effect; and what becomes of that other entry |
| `Protocol.PresentIffStands` | gatekeeper.go:22-54 | in every run an entry is present if and only if it was written and not removed since |
| `Protocol.StepEndsPendingIff` | anicetus.go:39-43 | a step ends a pending entry if and only if it is a removal after an evaluation without a herd, a cleanup or the write of a leader that is done, and takes effect |
| `Protocol.PendingLastsIff` | anicetus.go:39-43 | in every run a pending entry lasts if and only if there is no such step |
| `Protocol.HerdWaitsWhilePending` | gatekeeper.go:26-34 | until then every request of a herd is told to wait or fails, and only who had found no entry before can lead |
| `Protocol.CalmEvaluationRemoves` | anicetus.go:39-45 | the next evaluation without a herd removes an orphan |
| `Protocol.ReadComesFirst` | gatekeeper.go:23-39 | who is about to store a pending entry had read that there was none |
| `Protocol.LeaderLookedBefore` | gatekeeper.go:22-42 | while an entry stays present, only requests that had looked before become leaders |
| `Protocol.FindsNothingIff` | gatekeeper.go:23-26 | in every run a read finds no entry if and only if every write before it was followed by a removal |
| `Protocol.SecondLeaderOnlyIf` | gatekeeper.go:22-42 | a request stores after another only if it had found no entry before that one stored, or an entry was removed in between |
| `Protocol.TwoLeadOnlyIf` | gatekeeper.go:22-42 | two requests lead at once only if one of these holds of their stores |
| `Protocol.TwoCanLead` | gatekeeper.go:23-39 | in any state without an entry, two that both look before either stores both lead |
| `Protocol.TwoLeadByLooking` | gatekeeper.go:23-39 | a run from the start in which nothing fails and two lead so |
| `Protocol.TwoLeadByRemoval` | anicetus.go:37-43 | a run from the start in which nothing fails and the second leader arrives when the first has stored already |
| `Protocol.AloneIsAtomic` | anicetus.go:26-48 | the steps of a request left alone amount to one atomic evaluation, for all outcomes of all operations |
| `Protocol.LeadingAloneIsAtomic` | internal/http/handlers.go:51-73 | the steps of a leader left alone leave the entries that the handler leaves, whatever fails of them |
| `Protocol.ServedAlone` | internal/http/handlers.go:38-88 | all steps of a request left alone amount to the handler serving it |
| `Protocol.LeadersFinish` | internal/http/request.go:72-99 | in every interleaving a leader is finished only by cleaning up, or with a response, a processed entry, a cooldown and a copied body behind it |
| `Handler.ForwardLeading` | internal/http/request.go:72-99 | `RequestDone` runs once the backend responds, also if the body cannot be copied afterwards; if it fails, nothing of the response is written |
| `Handler.Lead` | internal/http/handlers.go:51-73 | any failure of the leader ends in a cleanup |
| `Handler.Serve` | internal/http/handlers.go:38-88 | reply and whole new state for one GET request |
| `Handler.LeadingLeavesPendingIff` | internal/http/handlers.go:51-73 | a leader leaves its entry pending if and only if its fingerprint changed, or neither the write nor the removal that would end it takes effect |
| `Handler.LeadingIsDone` | internal/http/handlers.go:55-73 | what a leader leaves of the entry it is done as, in all cases, and that it leaves the others |
| `Handler.LeadingStartsCooldown` | internal/http/handlers.go:57-59 | the cooldown runs from when the request was done, if the response came and the entry was stored |
| `Handler.ReplyTells` | internal/http/handlers.go:38-88 | the backend's answer if and only if there is one and the gates are open or the leader's response handler succeeds; to come again if and only if it must wait; an error otherwise |
| `Handler.ServingLeavesNothingPendingIff` | internal/http/handlers.go:38-88 | that for one request served on its own; others leave no new pending entry, but for a first write wrongly reported as failed; third fingerprints' entries stay |

## Left out

- RateReserve.ReservationsConform: leaves out stretches whose last wait is cut off at the longest duration, for which the
  bound is false in general (`RateReserve.CappedWaitsBreakTheBound`).
- RateCancel.CancellingInReverseIsExactUndo: takes a whole number of nanoseconds per token; for other limits it is
  false in general, and `RateCancel.InnerCancelLeavesOuterExactIff` says exactly when two reservations are undone.
- RatePenalty.PenaltyOnlyTightens: for limits not made by `Every` it bounds how far ahead the penalised bucket can be; that
  it can be ahead, and can grant more, is `RatePenalty.PenaltyForgivesAFraction` and `RatePenalty.WipedDebtGrants`.
- RedisBucketRuns.DetectorsAgree: leaves out runs that drop a key after a refusal, for which it is false if a token takes
  more than a microsecond (`RedisBucketRuns.DropsGoUnnoticedIff`).
- Rounding of float64, saturation of `time.Time` and overflow of `interval * burst`.
- Reservations cancelled out of order, beyond the nested case: later reservations can move `lastEvent` backwards.
- A detector call whose map operations interleave with those of another call for the same fingerprint, or with a purge
  between the two halves of its `Get`: two such calls can make two limiters, one of which is lost. Calls for other
  fingerprints, and purges between looking and drawing, are in `DetectorRuns`.
- `WaitN`, contexts and timers, which are built on reserving and cancelling; `Reservation.DelayFrom`.
- `Map.Stop`, which closes a channel that is never created.
- Requests other than GET: the handler forwards them and then goes on to evaluate them as well.
- HTTP headers and bodies, server, configuration, logging.
- Computing a fingerprint from a request (`fingerprint/http_request.go`): abstract keys with equality here.
- The Go side of the Redis detector and the Redis storage: connections and reply decoding.
- Option builders, `Status.String`, and detectors with an interval or burst that is not positive.
