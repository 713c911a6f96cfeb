# Verified model of the geo-distributed rate limiter

Dafny models of the parts of the limiter that carry hard guarantees, with proofs of those guarantees.

* **The cross-region counter.** Three regions each run a gateway, a Redis and a sync process. `HashStore`,
  `Counter`, `Envelope`, `Buffer`, `PartitionTable`, `Relay`, `Reconciler` and `Handler` model one process at a
  time, as classes whose methods are proved against value functions. `Protocol` joins those functions into a state
  machine in which every Redis command, every relay write and every reconcile read is its own step, so requests and
  sync interleave freely, messages are lost, repeated and reordered, writes fail with or without effect, processes
  restart and keys expire. `Safety`, `Bounds` and `Convergence` prove what holds over all its runs;
  `Accounting` says what the counted increments stand for, `Timing` adds real times to live, `Reachability` proves
  that every reachable state can still converge, `Divergence` that ids with a colon need not. `Refinement` proves
  that a message handled, a request checked or a pass made without interruption is a sequence of protocol steps
  with the effect the methods are proved to have. `Runs` makes runs longer.
* **The limiters.** `TokenBucket` (amounts scaled by 60000, so exact in integers) and `SlidingWindow` model the two
  scripts over arbitrary histories of calls.
* **The override cache.** `OverrideCache` holds the code's critical sections as methods of a class, and a state
  machine of any number of goroutines; `OverrideRefinement` proves that running one section of the class is one step
  of the machine.
* **The agent.** `Decider` (hysteresis rules) and `Predictor` (smoothing and cached forecasts).

`Wrappers`, `Sums` and `Text` hold what the others share.

## How the model reads the code

* The channel keeps every envelope ever published; losing, repeating and reordering are delivering never, again,
  or out of turn.
* `issued` counts the increments each region really made; it survives key expiry, which the model allows at any
  moment on any Redis (`Expire`). Safety theorems are stated against it. Where an intact own slot is needed the
  theorem says `(region, key) !in wiped`.
* `Timing` assumes that a request is counted after its clock reading, that its read comes less than a minute after
  its window ends, that peers' clocks are at most three minutes ahead, and that a region's clock does not run back.
* A Redis command answers, fails without effect, or fails after taking effect (`Link`).
* Loops over dictionaries visit the items in an arbitrary order, or in an order given as a parameter.
* Clock readings, results of the limiter, of fits and of the Redis GET are parameters.

## Where the code and its documentation differ

* The documents say an envelope is published per allowed request; the handler increments and publishes for every
  request the limiter decided, denied ones included (handler.go:137-160). The model follows the code.
* "Never under-allow" (docs/sync-constitution.md:26-27) therefore holds of the counter and not of admissions. No
  denial by the cap is due to lost, repeated or stale messages: the increments really made exceed the limit
  (`NeverUnderAllow`). But requests that were denied count too, so `limit` locally denied requests followed by a
  locally allowed one end in a denial with nothing admitted (`DeniedWithoutAdmissions`). `Account` says exactly what
  the count is made of, `CapDenialRestsOn` when the denial is backed by as many admissions as the limit, and
  `AlwaysEarnedIff` that this is so in every run only for limits of 0 and below.
* The comment in sliding_window.lua says entries strictly older than the window are dropped; the command also drops
  those exactly one window old (line 23). The model drops both.
* The comment in predictor.py:186 says a failed refit leaves the cache empty; it leaves whatever was cached. The
  alignment theorem covers that.
* The relay is said to drop malformed input, but other exceptions than EnvelopeError end it: `int(...)` of a window
  or timestamp, a list or object for a region, bytes that are no text, and a timestamp too large for a float once
  the message is applied. `EscapesIff` says exactly which messages escape the parser, and `Relay.Handle` and
  `Relay.Run` exactly which messages end the relay.

## Properties that hold only under a condition

* Expiry of an idle token bucket is invisible exactly when burst <= 2 * limit (`ExpiryInvisibleIff`).
* A token-bucket retry hint is honoured exactly when burst >= 1 and the denied call's clock was not behind the
  bucket (`HintHonouredIff`).
* A sliding window keeps its bound under arbitrary clocks exactly when the limit is at most 1 (`AnyClockSafeIff`);
  with a nondecreasing clock it always does (`WindowBound`).
* A reconcile envelope round-trips exactly when its origin and version are valid, no value is negative and no tier
  holds a colon (`ReconcileRoundTrip`).
* Reconciliation brings all replicas of an id together, whenever its hypotheses are met, exactly when tier and user
  hold no colon (`ReconciledIff`; `Diverges` gives the run for the others).
* The Redis hash equals the G-counter as a map exactly when no field was written with zeros alone
  (`RedisRefinesGCounter`).

## Model

| member | source | states |
|---|---|---|
| Safety.StepKeepsInv | docs/sync-constitution.md:29-33 | every step of every process keeps the whole invariant: values bounded by what was issued, own slots exact, verdicts right |
| Safety.NeverUnderAllow | gateway/internal/handler/handler.go:162-180 | in every reachable state a replica's slot is at most the region's issued count (and own slot while intact), and every denial by the cap had a limit below the increments really made, denied requests' among them |
| Accounting.Account | gateway/internal/handler/handler.go:137-189 | in every reachable state what a region, or all of them, counted for a key is exactly the requests admitted, denied locally, denied by the cap, waiting, given up, and answered with an error after being counted |
| Accounting.CapDenialRestsOn | docs/sync-constitution.md:26-27 | at a denial by the cap the limit is reached by the admissions so far plus the requests that only counted; where there are none of these it takes as many admissions as the limit |
| Accounting.DeniedWithoutAdmissions | gateway/internal/handler/handler.go:137-180 | for every limit, a run in which the cap denies a locally allowed request although nothing was admitted |
| Accounting.AlwaysEarnedIff | docs/sync-constitution.md:26-27 | denials by the cap follow as many admissions as the limit in every run if and only if the limit is at most 0 |
| Safety.SentSurvivesTheWire | sync/envelope.py:49-122 | in every reachable state every envelope ever published is parsed back unchanged from what is put on the wire |
| Safety.RuleHoldsIff | sync/relay.py:62-64 | a region drops a peer's messages exactly when it was partitioned that way and since then neither healed, cleared nor restarted |
| Safety.NothingInFlightExceeds | sync/relay.py:71-105 | everything published, being applied, buffered or gathered for a region is at most what it issued, and nothing queued names the holder's own region |
| Safety.SlotsOnlyGrow | docs/sync-constitution.md:29-30 | no step lowers any slot, except the expiry of that key on that Redis |
| Safety.SyncKeepsOwnSlots | sync/counter.py:57-65 | no step of a sync process changes a region's own slot |
| Bounds.RegionBound | gateway/internal/handler/handler.go:140-189 | under any interleaving a region admits at most the limit for a key, plus one per skipped check |
| Bounds.GlobalBound | gateway/internal/handler/handler.go:140-189 | all R regions together admit at most R times the limit, plus the skipped checks |
| Bounds.LastReadBound | gateway/internal/handler/handler.go:162-180 | the checked admissions never exceed the last admitting read's limit plus the peer increments it could not see |
| Timing.OwnSlotIsIntact | gateway/internal/handler/handler.go:139-162 | with the keys' real times to live, whenever a region reads the hash for a request of a window its own slot has not lapsed |
| Timing.TimedRegionBound | gateway/internal/handler/handler.go:139-189 | the bound of a region with no hypothesis about expiry |
| Timing.TimedGlobalBound | gateway/internal/handler/handler.go:139-189 | the bound of all regions with no hypothesis about expiry |
| Convergence.DeliveryApplies | sync/relay.py:87-105 | a delivered reconcile message that is worked through raises every slot it names to at least its value, whatever else happens but expiry there |
| Convergence.CounterDeliveryApplies | sync/relay.py:71-86 | a delivered counter message that is worked through, while requests keep counting, leaves its slot at least at its value and at its old value |
| Convergence.PassCovers | sync/reconciler.py:66-89 | a complete pass interleaved with anything but increments and expiry announces the own slot of every colon-free cell that has one |
| Convergence.ReplicasConverge | sync/reconciler.py:66-99 | from any reachable state, once increments stop and one pass per region reaches everyone, all replicas hold what was issued and every HGETALL sums to the true total |
| Convergence.ColonIdsAreNotReconciled | sync/counter.py:81-88 | no number of passes moves a replica of an id with a colon |
| Divergence.Diverges | sync/counter.py:81-88 | for every id with a colon a run that meets all hypotheses of convergence and leaves a replica without what was counted |
| Divergence.ReconciledIff | sync/counter.py:81-88 | the hypotheses of convergence imply agreement of all replicas if and only if tier and user hold no colon |
| Reachability.CanAlwaysConverge | docs/sync-constitution.md:32-36 | from every reachable state there is a continuation without increments or expiry after which every region shows, slot by slot and in sum, what had been issued of every colon-free cell with intact own slots |
| Reachability.CanReconcile | sync/reconciler.py:48-64 | from every reachable state each region can restart, make a whole pass and have it delivered and applied everywhere, so the hypotheses of convergence can always be met |
| Refinement.HandleIsSteps | sync/relay.py:53-105 | handling one message is a delivery and one protocol step per write, with the hashes and buffer that Relay.Handle ensures |
| Refinement.ReconcileIsSteps | sync/reconciler.py:66-99 | an undisturbed pass over any order of the window's keys publishes in protocol steps exactly the envelopes ReconcileOnce ensures, and changes nothing else |
| Refinement.CheckIsSteps | gateway/internal/handler/handler.go:137-197 | an undisturbed request is an increment, a publish and a read with the answer, hashes and message that Gateway.Check ensures |
| Relays.HistoriesAgree | sync/relay.py:71-105 | two message histories that ask for the same values, read off the messages' own fields, in any order, repeats and split, leave the same slots, equal to folding GCounter.merge; the own slot is untouched |
| Relays.HistoryLands | sync/relay.py:71-105 | after any history of messages a slot is the least value above its old one and every value the messages of other regions carry for it |
| Relays.Relay.Handle | sync/relay.py:53-110 | a malformed, escaping, blocked or self-origin message changes nothing; any other leaves every slot at the larger of its old value and the message's values that reach Redis, a counter message its one slot at `value`, and appends the failed writes to the buffer in order; the relay survives exactly the messages that do not kill |
| Relays.Relay.Run | sync/relay.py:45-51 | the receiving loop takes messages in order up to the first that kills, with the effect of exactly those |
| Relays.Relay.ApplyWrites | sync/relay.py:91-104 | the loop over slots applies and buffers write by write |
| Counter.SameWritesSameSlots | sync/counter.py:20-28 | the same set of max-merges in any order and multiplicity gives the same slots |
| Counter.ApplyAllSlots | sync/counter.py:20-28 | a slot ends at the least value above its old value and all values written to it |
| Counter.RedisRefinesGCounter | sync/crdt.py:32-36 | the merged hash reads the same as the G-counter, and is the same map exactly when no field got zeros alone |
| Counter.ScanIsExact | sync/counter.py:81-88 | the window scan yields (tier, user) for a key if and only if it is their key and both are colon-free |
| Counter.GlobalKeyInjective | sync/counter.py:35-36 | colon-free names and windows share no key |
| Counter.RegionalCounter.ApplyRemoteSlot | sync/counter.py:49-65 | the own region and negative values are refused; otherwise exactly the peer's slot of the key goes up to the value if that is larger, and no other slot changes |
| Counter.RegionalCounter.ScanWindowKeys | sync/counter.py:81-88 | the loop yields, in order, exactly the colon-free cells whose keys SCAN passes over |
| HashStore.MaxMergedSlots | sync/counter.py:20-28 | one script run raises one slot to the larger value and leaves all others |
| HashStore.Redis.MaxMerge | sync/counter.py:20-28 | writes exactly when the field is absent or lower, and returns that |
| GCounters.GCounter.Increment | sync/crdt.py:27-30 | adds to the own slot only, and refuses a negative amount without effect |
| GCounters.GCounter.Merge | sync/crdt.py:32-36 | the loop computes the merge whatever order it visits the items in |
| GCounters.GCounter.Value | sync/crdt.py:38-39 | the loop computes the sum of the slots |
| GCounters.MergeIdempotentCommutative | sync/crdt.py:32-36 | merging is idempotent and commutative as maps |
| GCounters.MergeGrows | sync/crdt.py:32-36 | a merge lowers no slot and not the value |
| Handlers.Gateway.Check | gateway/internal/handler/handler.go:129-209 | the own slot alone goes up by one whatever the local decision, and is what is published; errors skip the global check; a visible sum within the limit leaves the local decision as it is, a larger one denies with remaining 0 and the wait to the next minute, at least 0 |
| Handlers.Gateway.SumSlots | gateway/internal/handler/handler.go:166-171 | the loop over the reply computes its sum in any order |
| Handlers.GlobalRetryIsExact | gateway/internal/handler/handler.go:173-180 | the hint of a global denial is the exact wait into the next window |
| Reconcilers.Reconciler.ReconcileOnce | sync/reconciler.py:66-99 | the loop publishes the chunks of the pass in order, up to the first publish that raises, and finishes with the right counts exactly when neither the scan nor a publish raises |
| Reconcilers.Reconciler.Tick | sync/reconciler.py:58-64 | a tick passes over the current and then the previous window, each publishing its chunks up to a publish that raises, and a pass that raises does not stop the other |
| Reconcilers.OutputIsPublished | sync/reconciler.py:91-99 | a pass adds its chunks in order, each in an envelope with the region, the window, the time of its publish and version 1, up to the first publish that raises, which still counts when only its reply was lost |
| Reconcilers.ChunksAreSized | sync/reconciler.py:80-86 | every chunk is nonempty and at most the chunk size, for any scan order and repeats |
| Reconcilers.ChunksAreExact | sync/reconciler.py:71-86 | the cells published are exactly the scanned ones with an own slot, each value one that was read |
| Reconcilers.ChunkCount | sync/reconciler.py:80-86 | without repeated cells the number of chunks is ceil(keys / size) |
| Reconcilers.PassCounts | sync/reconciler.py:68-89 | keysProcessed is the number of reads that found an own slot, and all chunks before the last are exactly full, so a scan that raises leaves less than a chunk unsent |
| Envelopes.ReconcileRoundTrip | sync/envelope.py:82-122 | parse(serialize(env)) == env if and only if origin and version are valid, values non-negative and tiers colon-free |
| Envelopes.CounterRoundTrip | sync/envelope.py:61-79 | a gateway's message is read back unchanged exactly when its region is valid and its value non-negative |
| Envelopes.AcceptedIsWellFormed | sync/envelope.py:49-110 | whatever is accepted names a valid region, no negative value, and only colon-free tiers |
| Envelopes.EscapesIff | sync/envelope.py:49-122 | exactly which messages raise something other than EnvelopeError, which are accepted and which rejected, read off the raw bytes and fields |
| Envelopes.AcceptedReadsItsFields | sync/envelope.py:61-110 | every field of an accepted message is read from the raw field of its own name: integers truncated towards zero, bools as 0 and 1, slots cut at the first colon and none lost or added |
| Envelopes.CutJoin | sync/envelope.py:97-103 | splitting a joined slot key gives the cell back if and only if the tier has no colon |
| Envelopes.ParseSlots | sync/envelope.py:96-103 | the loop over the slots object accepts exactly well-formed ones and loses no slot |
| Envelopes.Parse | sync/envelope.py:49-110 | the checks in the order of the source give the parse result |
| Buffers.FifoRefinement | sync/buffer.py:29-50 | for any history, pushes = departures in order followed by the queue, which stays within the cap |
| Buffers.QueueIsNewest | sync/buffer.py:29-39 | with nothing drained the queue is the last max_entries pushes, so nothing is dropped early |
| Buffers.KindsAreIndependent | sync/buffer.py:29-50 | operations on other kinds do not change a kind's queue or departures |
| Buffers.FailoverBuffer.Push | sync/buffer.py:29-39 | reports a drop exactly when the queue was full; other kinds are untouched; a cap below one fails on an empty queue |
| Buffers.FailoverBuffer.DrainNext | sync/buffer.py:41-47 | one generator step pops the head of its kind |
| Buffers.FailoverBuffer.DrainAll | sync/buffer.py:41-47 | an undisturbed drain yields the whole queue in order and empties it |
| PartitionTables.BlockedIff | sync/partition_table.py:21-31 | after any history of changes a pair is blocked exactly when this direction was added and since then neither removed nor cleared |
| TokenBuckets.Bucket.Run | gateway/internal/limiter/token_bucket.lua:11-54 | a call is allowed exactly when no stretch of calls ending in it has used up what it began with and was refilled, and replies with the whole tokens left or the exact wait |
| TokenBuckets.AdmissionIsExact | gateway/internal/limiter/token_bucket.lua:17-54 | for any clocks, limits and bursts that change from call to call and any start: call n is allowed if and only if a token is left of the start plus all refill less all allowed calls, and of every earlier full bucket plus the refill since less the calls allowed since; remaining and retry_after_ms follow from the least of these balances |
| TokenBuckets.RemainingIsExact | gateway/internal/limiter/token_bucket.lua:52-54 | of the calls that follow with no clock advance, exactly as many as `remaining` says are allowed |
| TokenBuckets.Ledger | gateway/internal/limiter/token_bucket.lua:17-50 | tokens spent and left are covered by the tokens at the start plus what each call's advance of the running maximum clock refills at that call's limit, with backward clocks and changing limits and bursts |
| TokenBuckets.RateBound | gateway/internal/limiter/token_bucket.lua:17-50 | any stretch of calls admits at most burst + limit * advance / 60000 for the largest limit asked for |
| TokenBuckets.NoRefillDrains | gateway/internal/limiter/token_bucket.lua:26-29 | with no refill rate exactly the whole tokens at the start are admitted |
| TokenBuckets.RetryHintIsExact | gateway/internal/limiter/token_bucket.lua:38-44 | after a denial every call before the hint is denied and every one from it on allowed, however often and in whatever clock order it was polled before |
| TokenBuckets.HintHonouredIff | gateway/internal/limiter/token_bucket.lua:22-44 | coming back exactly at the hint is allowed if and only if burst >= 1 and the clock was not behind |
| TokenBuckets.ExpiryInvisibleIff | gateway/internal/limiter/token_bucket.lua:15-28 | dropping a bucket after 120 s idle changes no reply in any history if and only if burst <= 2 * limit |
| SlidingWindows.SlidingWindowLogLimiter.Check | gateway/internal/limiter/sliding_window.go:46-57 | one call runs the script with a nonce that the sequence number gives, and touches only its key |
| SlidingWindows.NoncesAreDistinct | gateway/internal/limiter/sliding_window.go:50 | nonces of one process are distinct until the 64-bit sequence wraps |
| SlidingWindows.PrunedSetRefinesLog | gateway/internal/limiter/sliding_window.lua:21-47 | with a nondecreasing clock and distinct nonces the pruned set replies exactly as a log that is never pruned |
| SlidingWindows.RepliesAreExact | gateway/internal/limiter/sliding_window.lua:21-47 | with a nondecreasing clock a call is admitted if and only if fewer than its limit were admitted in the minute before, remaining is the room left, and the hint ends when the oldest of them is a minute old |
| SlidingWindows.WindowBound | gateway/internal/limiter/sliding_window.lua:21-47 | no minute ending at any instant holds more admissions than the largest limit asked for |
| SlidingWindows.ExpiryIsInvisible | gateway/internal/limiter/sliding_window.lua:37-45 | the 120 s key expiry changes no reply |
| SlidingWindows.RetryHintIsExact | gateway/internal/limiter/sliding_window.lua:29-38 | with a fixed limit and nondecreasing clock, after a denial the next call that is not an early poll is admitted exactly when it waits for the hint, however many early polls came between |
| SlidingWindows.AnyClockSafeIff | gateway/internal/limiter/sliding_window.lua:21-47 | under arbitrary clocks the bound holds if and only if the limit is at most one |
| OverrideCache.StepKeepsInv | gateway/internal/override/cache.go:74-114 | every step of every goroutine keeps the invariant of the cache |
| OverrideCache.SingleFlight | gateway/internal/override/cache.go:91-101 | at most one goroutine is fetching or about to publish for a user, and then the marker is there |
| OverrideCache.MarkerHasLeader | gateway/internal/override/cache.go:99-109 | a marker is there only while a leader is busy for its user |
| OverrideCache.JoinersShareTheResult | gateway/internal/override/cache.go:91-113 | every joiner returns exactly its leader's result; the channel is closed once, after the result is set |
| OverrideCache.FetchRate | gateway/internal/override/cache.go:77-107 | after a fetch that found no error the user's next fetch starts at least the time to live later |
| OverrideCache.CacheHitsAreFresh | gateway/internal/override/cache.go:77-89 | a cache hit is the result of a non-error fetch for that user less than the time to live before |
| OverrideCache.AnswersAreFound | gateway/internal/override/cache.go:74-147 | in every reachable state what a leader, a joiner or a cache hit returned has a value exactly when the GET of its flight found a positive limit, and then that limit |
| OverrideCache.SomeoneCanStep | gateway/internal/override/cache.go:92-113 | a goroutine that has not returned can step, or waits for a leader that can |
| OverrideCache.LookupsEnd | gateway/internal/override/cache.go:74-114 | without new lookups the goroutines take at most five steps each under any schedule |
| OverrideCache.Cache.SlowPath | gateway/internal/override/cache.go:84-101 | under the lock: a live entry is returned, a running lookup joined, otherwise a fresh one is marked |
| OverrideCache.Cache.Lookup | gateway/internal/override/cache.go:74-114 | a lookup nobody interrupts answers from a live entry, or else with a value exactly when the GET finds a positive limit, and then that limit, cached for the time to live unless the GET failed; no marker is left |
| OverrideRefinement.LockStep | gateway/internal/override/cache.go:83-101 | the section under the write lock, run on a heap that mirrors any state of the machine, is the machine's step and mirrors its result |
| OverrideRefinement.PublishStep | gateway/internal/override/cache.go:105-110 | the same for the section that stores the entry, sets the result and removes the marker |
| OverrideRefinement.CloseStep | gateway/internal/override/cache.go:112-113 | the same for closing the channel, which the invariant shows is open |
| OverrideRefinement.WakeStep | gateway/internal/override/cache.go:94-95 | the same for a waiting goroutine, which by the invariant reads a result that is set |
| Deciders.Decider.CheckCapacity | agent/decider.py:68-112 | a policy is written exactly when the region is unthrottled and predicted above 48 requests a second (36 if anomalous), or throttled and predicted below 30, and more than 60 s have passed |
| Deciders.Decider.CheckNoisyNeighbor | agent/decider.py:116-132 | the loop carries out the override rule user by user |
| Deciders.Decider.Decide | agent/decider.py:55-64 | one tick treats the regions in order; what that writes TickWritesIff and TickOverridesIff say |
| Deciders.TickWritesIff | agent/decider.py:68-112 | after any run a tick throttles a region to (70, 14) if and only if it is unthrottled, predicted above 48 (36 if anomalous) and more than 60 s past its last write or the start, restores (100, 20) if and only if it is throttled, predicted below 30 and as long past, and writes nothing else |
| Deciders.TickOverridesIff | agent/decider.py:116-132 | after any run a tick overrides a user, once, if and only if some region lists the user above 30% of a tier and the last override, or time 0, is more than 60 s back |
| Deciders.NoFlapping | agent/decider.py:68-112 | over any ticks a region's writes alternate throttle and recovery more than 60 s apart, at most floor(T / 60) + 1 in T seconds, and the limit is 70 or 100 accordingly |
| Deciders.OverridesAreSpaced | agent/decider.py:116-132 | overrides of one user are more than 60 s apart across regions and tiers |
| Deciders.OverrideNeverLapses | agent/decider.py:122-131 | while a user stays above the share and ticks are under 60 s apart, its 120 s key never lapses once written |
| Predictors.SmoothIsWeightedSum | agent/predictor.py:49-51 | the smoothing loop equals its closed-form weighted sum |
| Predictors.SmoothBetween | agent/predictor.py:49-51 | smoothing stays within the smallest and largest input |
| Predictors.EwmaStaysBetween | agent/predictor.py:188-192 | the tick-by-tick state stays within the range of the rates once it has taken one in |
| Predictors.ForecastAlignment | agent/predictor.py:155-192 | the prediction of a tick within retrain_every ticks of a fit is the value, clipped at 0, the last fit made for exactly that tick, and leaves the smoothing state; any other is alpha * rate + (1 - alpha) * state, or the rate itself when the state is 0 |
| Predictors.FittedIff | agent/predictor.py:158-186 | a refit succeeds at a tick if and only if a fit is to be had, the history is long enough, and the tick is a multiple of retrain_every or no fit succeeded in the retrain_every - 1 ticks before |
| Predictors.LiveStateIsSmooth | agent/predictor.py:126-129 | after any run the smoothing state is the smoothing of the seed followed by the rates of the ticks no forecast covered, so the weighted sum holds of the live state |
| Predictors.HistoryIsNewest | agent/predictor.py:98-100 | after any run the history is the last max_history rates |
| Predictors.SeriesPredictor.Tick | agent/predictor.py:139-192 | one tick of one series: a due fit predicts its first value and caches the others, a cache in between gives up its head, and otherwise the state becomes alpha * rate + (1 - alpha) * state |
| Predictors.SeriesPredictor.WarmUp | agent/predictor.py:116-129 | seeding fills the bounded history and smooths the series |

## Left out

- Transport, HTTP, pub/sub connections, JSON text, the admin endpoints and metrics: plumbing; a message is an already decoded object or a failure to decode, and `int` of a text, `str` of a non-text and the range of floats are parameters.
- Replay of the failover buffer: no code of the service drains it, so convergence rests on reconciliation alone.
- Redis data loss in `Timing`: there keys go only when a time to live has run out. The protocol itself lets a key go at any moment, which covers data loss too.
- Slot values that are not integers, and 64-bit overflow of counts: the hashes hold unbounded integers.
- Relays.Relay.Run: the partition rules do not change during the loop; in the protocol they change at any time.
- Relays.Relay.Handle: the buffered tuple is kept as the key, region and value it stands for.
- Floating-point rounding, including Redis storing Lua numbers as text and `round(x, 2)`: the token bucket is exact in scaled integers and the agent in reals.
- Sharing one limiter key between the two algorithms; retry hints and the expiry of a token bucket are stated for a limit and a burst that stay the same.
- SlidingWindows.NoncesAreDistinct: two processes, or a restarted one, that reuse a nonce in the same millisecond are not covered.
- The read-write lock of the override cache: each critical section is one atomic step.
- Policy store, policy adoption by the gateway and the selection of the limiter: the written policies lack a field the gateway requires, so nothing is claimed about enforcement.
- The limit of an override write, always 5, and the reason texts: the model keeps the times of the override writes.
- A policy write that raises ends the agent; the runs of `Decider` are those before that. Override writes are taken to succeed.
- The Holt-Winters fit, the isolation forest, feature extraction and synthetic data: the fit's outcome and the anomaly flag are inputs.
- `set_period`, `snapshot`, the simulator, the command lines and dashboards: no property beyond their bodies.
