# A model of cbsignal, the signalling server

The server relays WebRTC signals between peers; several instances work as one through
Redis lists. This project models the parts of it where a fast or concurrent structure has
to keep a simple promise, and proves that promise for every input, every run and every
interleaving of the steps.

- **The LRU cache** (`RecencyList`, `LinkedBucket`, `StackProperty`, `TwoLevel`,
  `Freshness`, `ShardedCache`). A bucket is a doubly linked list threaded through an index
  array; it is proved to be the recency list it stands for, and the recency list is
  characterised without any list: a key is stored exactly when fewer than the capacity of
  other keys have been touched since. Above the buckets, sharding and the two-level LRU-2
  mode are proved sound over whole runs, with the conditions under which a hit is the latest
  value and under which it is an expired one.
- **The signal filter** (`SignalFilter`). With the cache in front and any number of handlers
  interleaved, when a signal is dropped and how much has to happen before a peer is told "not
  found" a second time.
- **The token bucket** (`TokenRules`, `TokenBucket`, `TokenRuns`, `TokenErasure`). Lazy refill
  is eager refill for every caller, reservations end exactly on time and in order, the rate
  bound holds even with early clock readings of Available, and 64-bit arithmetic suffices
  under an exact condition.
- **The batching pipeline** (`AggregatorSteps`, `AggregatorLedger`, `AggregatorProgress`,
  `AggregatorStop`, `Aggregator`, `MessageQueue`, `Pipeline`, `PipelineLedger`,
  `PipelineRetry`). Any number of workers, senders, timers, trims, pops, clears, panics,
  failing pushes and their retries, interleaved in any order: conservation, which batches are
  processed and when, the timer protocol, that it can always finish, stopping, where every
  batch goes, the length of the Redis list, the order of what arrives, and what a retry sends.
- **Supporting parts** (`ConcurrentMap`, `NodeRegistry`, `NodeRemoval`, `NodeHub`, `CpuList`).
  The sharded map is one map for every hash function, the heartbeat is in order, a node is
  registered exactly until it is removed, and the cpuset parser accepts exactly its language
  and ends exactly when it should.

Code that updates fields or arrays is modelled by classes and methods with loops, proved
against functions on values; the run-level theorems are about those functions. Keys and peer
names are byte sequences, a cpuset list is a character string, a Go pointer to a registered
node is the node's number, a locked section is one step, a callback with state is a function
of all the calls made to it, and the clock, delivery outcomes, probe results and panics are
inputs. Bucket slots are 16-bit values (every stored index is shown to fit), the string hash
wraps at 32 bits, expiry times wrap at 64 and bucket masks are 16-bit vectors; other integers
are unbounded, except where 64-bit range is the point.

Where the code and its comments disagree, the code is modelled. `SafeStop` is documented to
miss no item. Exactly: from a reachable state in which nothing more is accepted, every way of
stopping processes all that was accepted if and only if the queue is empty in that state; the
check of `SafeStop` alone does not ensure it, since an item can be accepted between the check
and the closing of the quit channel. In LRU-2 mode a hit can be an older value or an expired
one; `Freshness` says when. Overlapping calls of `NodeHub.Get` can enter `Destroy` of a dead
node twice, and then all but one of them panic on the closed channel or stay inside;
`NodeRemoval` says exactly when. The error handler for a failed push is given the worker's
array and can send later items in place of the failed ones; `PipelineRetry` says which. `0--0`
is accepted as a cpuset range although the documented formats do not include it.

## Model

| member | source | states |
|---|---|---|
| LinkedBucket.Bucket.constructor | util/ecache/ecache.go:59-61 | a new bucket of the given capacity is a valid empty circle |
| LinkedBucket.Bucket.Put | util/ecache/ecache.go:63-90 | the linked structure after `put` is valid and stands for the recency list after replacing, prepending or evicting the last; reports 0 or 1 and the live entry that the inspector is told about |
| LinkedBucket.Bucket.Append | util/ecache/ecache.go:82-89 | a key that is new to a bucket with room takes the next slot and becomes the head |
| LinkedBucket.Bucket.Replace | util/ecache/ecache.go:71-80 | a key that is new to a full bucket takes over the slot of the tail, whose key leaves the map |
| LinkedBucket.Bucket.Get | util/ecache/ecache.go:92-99 | returns the stored entry, live or marked, and moves it to the front of the recency list |
| LinkedBucket.Bucket.Del | util/ecache/ecache.go:101-109 | marks a live entry, sinks it to the back and reports its former expiry; anything else is left alone |
| LinkedBucket.Bucket.Walk | util/ecache/ecache.go:111-118 | terminates having called the walker, which may keep state, on exactly the entries that the list walk visits |
| LinkedBucket.Bucket.Ajust | util/ecache/ecache.go:120-125 | the same code keeps the circle and moves a slot to the front in one direction and to the back in the other |
| LinkedBucket.Bucket.Relink | util/ecache/ecache.go:123 | the parallel assignment writes six different cells, three in each column |
| LinkedBucket.Rewired | util/ecache/ecache.go:121-125 | unlinking a slot and linking it after the sentinel turns the circle of a sequence into the circle of the sequence with that slot first, in both directions |
| LinkedBucket.ReversedCircle | util/ecache/ecache.go:53 | reading the circle backwards is a circle with the columns swapped, which is why one routine serves both ends |
| LinkedBucket.SlotsCover | util/ecache/ecache.go:52-57 | the circle visits every slot in use |
| LinkedBucket.KeyedSize | util/ecache/ecache.go:52-57 | the key map is a bijection with the slots in use, so its size is `last` |
| LinkedBucket.Position | util/ecache/ecache.go:65-67 | the slot that the map gives for a key is at the place where the recency list holds that key |
| RecencyList.WalkVisits | util/ecache/ecache.go:111-118 | a walk with any stateful walker calls it on the live entries in recency order, on all of them or up to the first one it refuses |
| RecencyList.PutKeeps | util/ecache/ecache.go:63-90 | a put drops nothing but the old entry of its key and, for a new key in a full bucket, the entry touched longest ago |
| RecencyList.DelKeeps | util/ecache/ecache.go:101-109 | a deletion keeps the entries of all other keys |
| StackProperty.KeysAreLatest | util/ecache/ecache.go:64-99 | after any run of puts and gets the keys of a bucket are the first `cap` of all touched keys in order of their latest touch |
| StackProperty.StoredIff | util/ecache/ecache.go:64-99 | a key is stored exactly when it has been touched and fewer than `cap` other keys since; those are exactly the keys ahead of it |
| ShardedCache.HashBKRD | util/ecache/ecache.go:25-30 | the loop computes the signed 32-bit number congruent to the polynomial hash |
| TwoLevel.HashIsPolynomial | util/ecache/ecache.go:25-30 | the hash is the sum of s[i] * 131^(n-1-i) modulo 2^32, as a signed 32-bit number |
| TwoLevel.BucketIsLow | util/ecache/ecache.go:163 | the bucket of a key is its hash less whole multiples of the number of buckets |
| ShardedCache.MaskOfNextPowOf2 | util/ecache/ecache.go:31-39 | an all-ones mask, the smallest that covers the requested count |
| ShardedCache.BucketCount | util/ecache/ecache.go:141-142 | the number of buckets is a power of two, or 0 exactly when more than 32768 are asked for |
| ShardedCache.MaskIsRemainder | util/ecache/ecache.go:163 | masking a signed hash with all ones is its remainder by the number of buckets, negative hashes included |
| ShardedCache.Cache.constructor | util/ecache/ecache.go:136-159 | all buckets are allocated, empty and disjoint, with or without a second level |
| ShardedCache.Cache.Put | util/ecache/ecache.go:161-168 | only the bucket of the key changes, by a put of the entry with its expiry time in 64 bits |
| ShardedCache.Cache.Lookup | util/ecache/ecache.go:215-245 | one look-up with or without promotion, and what it finds |
| ShardedCache.Cache.Get | util/ecache/ecache.go:191-197 | the interface value of a hit |
| ShardedCache.Cache.Del | util/ecache/ecache.go:247-264 | both levels mark the key and one copy is released |
| ShardedCache.Shard.Del | util/ecache/ecache.go:251-262 | of two live copies the one that expires later is reported and released |
| Freshness.ReleasesLatest | util/ecache/ecache.go:250-262 | of the live copies the one that expires last is released, of two that expire together the one in level 0 |
| ShardedCache.Cache.Walk | util/ecache/ecache.go:266-275 | every bucket and level is walked with one walker; a refusal ends one level only |
| ShardedCache.WalkAllVisits | util/ecache/ecache.go:266-275 | each bucket contributes the live entries of level 0 and then of level 1, each in recency order and in full or up to its first refusal |
| ShardedCache.FullWalk | util/ecache/ecache.go:266-275 | a walker that never refuses is called on exactly the live entries of all buckets and levels |
| TwoLevel.RunSound | util/ecache/ecache.go:161-264 | after any run over all buckets every key is in its own bucket, a live level-0 entry is the latest put and a live level-1 entry was put since the latest deletion |
| TwoLevel.HitSound | util/ecache/ecache.go:191-245 | every hit returns a value put under that key since its latest deletion; in single-level mode the latest one |
| Freshness.HitIff | util/ecache/ecache.go:208-245 | exactly when a look-up is a hit and with which value, for both modes, expiring or not |
| Freshness.PutThenGet | util/ecache/ecache.go:161-245 | after any run what is put is found at once unless dead or expired on arrival, in LRU-2 mode even expired |
| Freshness.DelThenGet | util/ecache/ecache.go:215-264 | after any run what is deleted is not found |
| Freshness.LatestIffPromoted | util/ecache/ecache.go:215-245 | after any run an LRU-2 hit is the latest put if the key is live in level 0 or a get has found it live there since its latest put; otherwise it is one of the earlier puts since the latest deletion |
| Freshness.ExpiredHitIff | util/ecache/ecache.go:215-234 | a hit is an expired entry exactly when LRU-2 finds it live in level 0 with its time over |
| Freshness.PromotionIgnoresClock | util/ecache/ecache.go:230-233 | such an entry is always a hit, expired or not |
| Freshness.ExpiredHit | util/ecache/ecache.go:228-234 | a run with an expired hit: one put, looked up at any time after its expiry |
| TwoLevel.HitPromotes | util/ecache/ecache.go:228-234 | a key live in level 0 is hit with its latest value and is then dead in level 0 and live in level 1 with that entry |
| TwoLevel.OlderValueReappears | util/ecache/ecache.go:228-234 | a run in which LRU-2 returns an older value after the newer one was evicted, the witness for the second case of `LatestIffPromoted` |
| SignalFilter.Handlers.constructor | handler/handler.go:23-25 | the filter starts empty, 16 buckets of 300 keys without expiry |
| SignalFilter.Handlers.HandleSignal | handler/signal.go:16-79 | without interruption: a cached key is dropped and nothing handed out; otherwise the signal goes to the local client or else to the known other node that the directory names, and is answered "peer not found" and recorded exactly when no client took it, no node was given it and no send failed fatally |
| SignalFilter.Handlers.LookUp | handler/signal.go:26-33 | the look-up with which both handlers begin, under the sender and the first non-empty target field |
| SignalFilter.Handlers.Deliver | handler/signal.go:38-78 | the rest of a signal's handling, in terms of the outside world and of what was handed out |
| SignalFilter.NotFoundIff | handler/signal.go:38-78 | the run-level notion of an answered or recorded event agrees with what was handed out |
| SignalFilter.Handlers.HandOn | handler/rejected.go:31-58 | the rest of a rejection's handling: recorded exactly when handed to a local client or accepted by a known other node |
| SignalFilter.Handlers.HandleReject | handler/rejected.go:16-59 | looks the key up and records a rejection that was handed on |
| SignalFilter.Handlers.HandlePeerNotFound | handler/handler.go:87-98 | puts the key into the filter and answers the sender |
| SignalFilter.SharedKeyIff | handler/handler.go:27-29 | when two pairs of peers share a filter key, exactly |
| SignalFilter.BucketRun | handler/signal.go:30-33 | with look-ups and endings of any handlers interleaved, each bucket of the filter is the list produced by the look-ups and puts for it |
| SignalFilter.DroppedIff | handler/signal.go:30-33 | at any point of any interleaving a look-up stops its handler exactly when its key was touched and fewer than 300 other keys of its bucket since |
| SignalFilter.SecondAnswer | handler/handler.go:87-98 | if one key is answered "peer not found" twice, the second handler had looked before the first answer was recorded, or at least 300 different other keys of the bucket had been touched since the key's latest touch when it looked |
| SignalFilter.OverlapAnswersTwice | handler/signal.go:30-33 | the first case happens: two overlapping handlers of one event both answer |
| TokenBucket.Bucket.constructor | util/ratelimit/ratelimit.go:134-159 | a new bucket is full, at tick 0 |
| TokenBucket.Bucket.AdjustAvailableTokens | util/ratelimit/ratelimit.go:303-317 | the field updates are the lazy refill |
| TokenBucket.Bucket.Take | util/ratelimit/ratelimit.go:267-295 | the new state, the wait and the refusal of a reservation |
| TokenBucket.Bucket.TakeAvailable | util/ratelimit/ratelimit.go:221-236 | the new state and the tokens taken |
| TokenBucket.Bucket.Available | util/ratelimit/ratelimit.go:248-255 | refills and reports the tokens, negative in debt |
| TokenRuns.LazyIsEager | util/ratelimit/ratelimit.go:306-317 | the lazy refill is one capped refill for every tick that passed |
| TokenRuns.LazyBucketIsEager | util/ratelimit/ratelimit.go:223-317 | on every run with a non-decreasing clock all answers are those of a bucket that refills in every tick and counts the ticks to repay a debt |
| TokenRuns.WaitExact | util/ratelimit/ratelimit.go:281-294 | a non-immediate wait is positive, and the debt is repaid at a later time if and only if the wait is over by then |
| TokenRuns.RunInv | util/ratelimit/ratelimit.go:223-317 | after any run, tokens granted and left never exceed the capacity and the refills so far, and the latest ready tick is no later than the tick at which the bucket is out of debt |
| TokenRuns.ReadyInOrder | util/ratelimit/ratelimit.go:269-301 | ready ticks of successive grants never decrease |
| TokenRuns.RateConformance | util/ratelimit/ratelimit.go:223-317 | for any mix of calls the tokens usable by tick t never exceed capacity + t * quantum |
| TokenRuns.WindowBound | util/ratelimit/ratelimit.go:223-236 | with TakeAvailable only, any window of ticks hands out at most capacity plus the window's refills |
| TokenRuns.NoTrace | util/ratelimit/ratelimit.go:244-255 | an Available, even with a clock reading older than the bucket's latest tick, or a refused TakeMaxDuration changes no later answer |
| TokenErasure.Erased | util/ratelimit/ratelimit.go:244-255 | in every order of locked sections, with Availables that read the clock early, all grants are those of the run without the Availables, and so is every later refill |
| TokenErasure.ErasedReply | util/ratelimit/ratelimit.go:190-255 | and so is every answer to a Take, TakeMaxDuration or TakeAvailable |
| TokenErasure.StaleRateConformance | util/ratelimit/ratelimit.go:223-317 | the rate bound for all those runs |
| TokenErasure.StaleWindowBound | util/ratelimit/ratelimit.go:223-255 | the window bound for all those runs without Take |
| TokenErasure.StaleReadyInOrder | util/ratelimit/ratelimit.go:244-301 | the order of ready ticks for all those runs |
| TokenErasure.StaleStateGoesBack | util/ratelimit/ratelimit.go:250-312 | the bound on the state itself does fail there: a stale Available on a full bucket turns the tick back |
| TokenRuns.RoomyFits | util/ratelimit/ratelimit.go:299-317 | if capacity - 1 + (2^63-1)/fillInterval * quantum fits into 64 bits, no run of TakeAvailable overflows |
| TokenRuns.CrampedOverflows | util/ratelimit/ratelimit.go:299-317 | if it does not fit, two calls overflow |
| TokenRuns.ServerRate | main.go:193 | the server's bucket has that room exactly for rates up to 999999999 |
| Aggregator.Aggregator.constructor | nodes/aggregator.go:45-68 | the buffer is at least the number of workers; all workers start afresh |
| Aggregator.Aggregator.TrySend | nodes/aggregator.go:72-74 | an item is accepted if and only if the queue is below its buffer, and then stands at the end of the queue |
| Aggregator.Aggregator.TryEnqueue | nodes/aggregator.go:71-92 | two attempts, with any steps of the others in between: an item is skipped if and only if the queue was full at both |
| Aggregator.Aggregator.OnRequest | nodes/aggregator.go:153-164 | takes the oldest item; the first one arms the timer, and a full batch, no other, is processed or lost to a panic |
| Aggregator.Aggregator.OnStopTimer | nodes/aggregator.go:166-169 | a running timer is stopped and the batch reset, any other must be drained |
| Aggregator.Aggregator.OnDrain | nodes/aggregator.go:167-169 | the tick is received and the batch reset |
| Aggregator.Aggregator.OnLinger | nodes/aggregator.go:170-176 | when the timer fires the batch, if there is one, is processed or lost to a panic, and the worker has none |
| Aggregator.Aggregator.OnQuit | nodes/aggregator.go:177-182 | the rest of the batch is processed or lost to a panic, and the worker leaves exactly if it did not panic |
| Aggregator.Aggregator.CheckQueue | nodes/aggregator.go:114-121 | SafeStop sees an empty queue |
| AggregatorSteps.TimerProtocol | nodes/aggregator.go:143-184 | in every reachable state with batches of two or more: at the loop head the batch is empty exactly when the timer is idle and drained, and an armed timer has the deadline of the first item |
| AggregatorSteps.NeverStuck | nodes/aggregator.go:145-173 | a drain always finds a tick, and a tick always finds a batch |
| AggregatorLedger.Ledger | nodes/aggregator.go:143-185 | in every run each worker holds exactly the items it took since it last ended a batch, its timer set by when it took the first; the processed batches are exactly those that ended, by being full, a tick or leaving; the lost items are exactly those of batches that panicked |
| AggregatorLedger.TickProcesses | nodes/aggregator.go:170-176 | a tick always finds a batch, gets exactly it processed and leaves none in hand |
| AggregatorLedger.NothingAcrossTick | nodes/aggregator.go:170-176 | all that a worker holds later are items it has taken after its last tick |
| AggregatorProgress.CanProcessAll | nodes/aggregator.go:143-185 | from every reachable state in which some worker has not left, the workers and the clock alone can bring about that nothing accepted is queued or in hand |
| AggregatorProgress.CanFinish | nodes/aggregator.go:106-185 | and then the aggregator can be stopped with everything processed |
| AggregatorProgress.OffersFill | nodes/aggregator.go:71-97 | from any state, offers in a row are accepted exactly as long as the queue has room, in their order |
| AggregatorProgress.NewAccepts | nodes/aggregator.go:45-97 | a new aggregator accepts exactly as many offers in a row as its buffer holds |
| AggregatorSteps.StuckForEver | nodes/aggregator.go:166-168 | a worker that drains an idle timer waits in every continuation of the run |
| AggregatorSteps.SmallBatchSticks | nodes/aggregator.go:157-168 | with a batch size below two a run of four steps, from the start through the first item, leads there |
| AggregatorSteps.Conservation | nodes/aggregator.go:71-184 | for any number of workers every accepted item is processed, lost to a panic, in hand or queued, exactly once; batch sizes and queue length stay in bounds |
| AggregatorSteps.OneWorkerInOrder | nodes/aggregator.go:143-184 | with one worker and no panic, processed batches, batch in hand and queue are the accepted items in order |
| AggregatorStop.StopsCleanIff | nodes/aggregator.go:106-127 | from any reachable state without panics, every continuation that accepts nothing more and ends with all workers out has processed everything accepted, if and only if the queue is empty in that state |
| AggregatorStop.SafeStopLosesNothing | nodes/aggregator.go:112-127 | in particular, nothing is lost if nothing was accepted after the empty-queue check |
| AggregatorStop.SafeStopCanLose | nodes/aggregator.go:112-127 | an item accepted between the check and the closing of the quit channel can be left behind |
| MessageQueue.TrimKeepsLatest | redis/redis.go:155-169 | LTRIM with -n and -1 keeps the latest n batches, with 1 and 0 none |
| MessageQueue.RedisList.PushMsgToMQ | redis/redis.go:147-149 | appends and returns the new length |
| MessageQueue.RedisList.BlockPopMQ | redis/redis.go:159-165 | takes the oldest batch, if there is one |
| MessageQueue.RedisList.SendBatchReq | nodes/node.go:107-130 | a lone sender leaves the list with its batch at the end, cut to 500 when it passed 1000 |
| Pipeline.ListBound | nodes/node.go:107-130 | the list exceeds 1000 by at most the number of senders and error handlers between push and trim and of trims that failed or were cut off by a panic |
| PipelineLedger.PushesAreHandOvers | nodes/node.go:107-118 | in every run the batches that a sender's worker pushed are, in order, exactly those that it handed over with a push that succeeded |
| PipelineLedger.SmoothPushesAll | nodes/node.go:107-118 | if all pushes succeed, what a sender has pushed is exactly all that it handed over |
| PipelineLedger.RefusedIsRetried | nodes/aggregator.go:190-196 | every batch whose push was refused without a panic has its error handler at work or had it send |
| PipelineLedger.ResendPushes | nodes/node.go:57-60 | an error handler puts what it read at the end of the list, if its push succeeds, and is done |
| PipelineLedger.AllDepart | redis/redis.go:147-169 | in every run what was pushed is what left the list, in order, followed by the list; only pops deliver, and only clearings and trims of a list of more than 500 drop |
| PipelineLedger.NothingDropped | redis/redis.go:147-165 | without clearings and successful trims, what was popped and the list together are what was pushed |
| PipelineLedger.TrimsAfterLongPush | nodes/node.go:119-121 | whoever is to trim has pushed onto a list that then had more than 1000 batches |
| PipelineLedger.CanDeliver | redis/redis.go:159-165 | from every reachable state the receiver can take the list out, batch by batch, in order |
| PipelineLedger.SenderNotBlocked | nodes/node.go:49-75 | whatever a sender's aggregator could do alone it can do in the pipeline, after the trim it may still have to make |
| PipelineLedger.RetryNotBlocked | nodes/node.go:57-60 | an error handler can read, and then send |
| PipelineLedger.OneArrayPerPanic | nodes/aggregator.go:129-143 | a worker makes a new array exactly when it starts afresh after a panic |
| PipelineLedger.OldArraysFrozen | nodes/aggregator.go:129-143 | an array that is no longer current is never written to again |
| Pipeline.PoppedInOrder | nodes/node.go:49-69 | with panics, failing pushes and punctual retries: the list is the end of what was pushed, and one sender's popped items stand at strictly increasing positions among its accepted items |
| PipelineRetry.RetryReads | nodes/aggregator.go:186-201 | in every run, what a retry finds before its sender hands over another batch is exactly the failed batch with the items taken since in place of its first ones |
| PipelineRetry.PromptIsPunctual | nodes/node.go:57-60 | a retry that reads before its sender takes another item finds the failed batch, and is punctual if it also pushes before another batch is handed over |
| PipelineRetry.PromptIff | nodes/aggregator.go:164-201 | with accepted items all different, such a retry finds the failed batch if and only if its sender has not taken another item |
| PipelineRetry.LateRetryBreaks | nodes/aggregator.go:164-201 | a retry that reads when some items have been taken since, but fewer than the failed batch has, sends items out of order, whatever was sent before |
| PipelineRetry.LateRetryDoubles | nodes/aggregator.go:164-201 | a retry that reads when any item has been taken since sends that item a second time beside its own batch |
| PipelineRetry.LateRetryReorders | nodes/aggregator.go:165-201 | a run with a late retry: a later item arrives before an earlier one and the first item is lost |
| ConcurrentMap.HashFnv32 | util/fastmap/cmap/cmap.go:362-370 | the loop computes the 32-bit FNV hash |
| ConcurrentMap.FnvVectors | util/fastmap/cmap/cmap.go:362-370 | the published FNV-1 values of nothing, "a" and "foo" |
| ConcurrentMap.ShardIsLow | util/fastmap/cmap/cmap.go:31-33 | the shard of a key is its hash less whole multiples of the number of shards |
| ConcurrentMap.ConcurrentMap.constructor | util/fastmap/cmap/cmap.go:21-28 | 32 different empty shards stand for the empty map, whatever the hash function |
| ConcurrentMap.ConcurrentMap.GetShard | util/fastmap/cmap/cmap.go:30-33 | the one shard that can hold the key: the key is in the one map exactly when it is in this shard, with the same value, and in no other shard |
| ConcurrentMap.ConcurrentMap.Set | util/fastmap/cmap/cmap.go:44-51 | one map update |
| ConcurrentMap.ConcurrentMap.Get | util/fastmap/cmap/cmap.go:83-92 | one map look-up |
| ConcurrentMap.ConcurrentMap.Has | util/fastmap/cmap/cmap.go:135-144 | membership in the one map |
| ConcurrentMap.ConcurrentMap.Remove | util/fastmap/cmap/cmap.go:146-153 | one map removal |
| ConcurrentMap.ConcurrentMap.Pop | util/fastmap/cmap/cmap.go:175-184 | look-up and removal |
| ConcurrentMap.ConcurrentMap.Upsert | util/fastmap/cmap/cmap.go:59-68 | stores what the callback makes of the current and the new value |
| ConcurrentMap.ConcurrentMap.SetIfAbsent | util/fastmap/cmap/cmap.go:70-81 | updates and answers true exactly for an absent key |
| ConcurrentMap.ConcurrentMap.RemoveCb | util/fastmap/cmap/cmap.go:159-173 | removes exactly if the callback says so, and returns its answer |
| ConcurrentMap.ConcurrentMap.MSet | util/fastmap/cmap/cmap.go:35-42 | all entries are set, in any order of iteration |
| ConcurrentMap.ConcurrentMap.Count | util/fastmap/cmap/cmap.go:94-104 | the sum over the shards is the size of the one map |
| ConcurrentMap.ConcurrentMap.GetChanByShard | util/fastmap/cmap/cmap.go:227-237 | every entry of the shard exactly once, in any order |
| ConcurrentMap.FanIn | util/fastmap/cmap/cmap.go:272-286 | in any interleaving of the channels every entry of the one map is passed on exactly once |
| ConcurrentMap.ConcurrentMap.IterBuffered | util/fastmap/cmap/cmap.go:207-217 | an enumeration of the one map |
| ConcurrentMap.ConcurrentMap.Items | util/fastmap/cmap/cmap.go:288-298 | the one map itself |
| ConcurrentMap.ConcurrentMap.Clear | util/fastmap/cmap/cmap.go:239-244 | with no other writer the map is empty afterwards |
| ConcurrentMap.UnionSize | util/fastmap/cmap/cmap.go:94-104 | for keys at home, shard sizes add up to the size of the union |
| ConcurrentMap.EnumeratesAll | util/fastmap/cmap/cmap.go:227-244 | an enumeration misses no key |
| NodeRegistry.RegistryInv | nodes/nodehub.go:52-89 | in every reachable state, however callers of Get interleave: registered nodes have their own address, destroyed ones are dead, every heartbeat is in order |
| NodeRegistry.ProbeHistory | nodes/node.go:140-162 | the probes that a node's fields speak of are exactly the probes of the run |
| NodeRegistry.DeadIff | nodes/node.go:135-138 | in every run a test of the heartbeat loop ends it with the node dead exactly when three or more probes in a row have failed, and otherwise sends it to sleep |
| NodeRegistry.NodeShows | nodes/node.go:140-162 | a node is alive exactly without a failed latest probe, shows the latest client count, and its queue was cleared once for each outage that began with a backlog |
| NodeRegistry.FailuresKill | nodes/node.go:133-162 | from every state any node whose probes fail from now on dies |
| NodeRegistry.NodeDies | nodes/node.go:133-162 | a run from the empty registry to a dead registered node |
| NodeRemoval.RunOwned | nodes/nodehub.go:52-89 | in every run, for every node: registered exactly while not removed; removals done and under way are one if the quit channel is closed and none otherwise; every entry into Destroy is still inside, closed the channel or panicked |
| NodeRemoval.RemovedOnce | nodes/aggregator.go:113-127 | hence of all callers that enter Destroy of a node at most one comes back, a node is removed at most once, and a caller removes its own node and no other |
| NodeRemoval.LateCallerNeverReturns | nodes/aggregator.go:113-127 | a caller inside Destroy when another one has closed the channel is, in every continuation, still inside or has panicked |
| NodeRemoval.LateCallerPanics | nodes/nodehub.go:65-84 | it happens, from every state with a dead registered node: of two callers that found it the later one panics, and the node that replaced it stays registered |
| NodeRemoval.LateCallerRun | nodes/nodehub.go:52-89 | the whole run from the empty registry: created, dead, removed once, one caller panicked, replaced |
| NodeRemoval.DestroyedOnceIff | nodes/nodehub.go:52-89 | in any run no Destroy is entered twice if and only if no caller acts on a dead node that another caller has begun to remove; then nobody panics |
| NodeRemoval.TurnsDestroyOnce | nodes/nodehub.go:63-89 | if every Get begins when no other Get of its address is in progress, no Destroy is entered twice, nobody panics, and every node is registered and untouched or gone, destroyed once and removed once |
| NodeRegistry.AnswerKeeps | nodes/node.go:140-162 | a probe keeps: alive exactly without retries, retries are the current run of failures, one clearing for each outage that begins with a backlog, the client count is the latest one |
| NodeRegistry.DeathIsFinal | nodes/node.go:135-138 | a dead node stays dead and is never probed again |
| NodeRemoval.GetReplacesDead | nodes/nodehub.go:63-89 | in every run Get returns a registered node that is not dead, unless another caller registered it after the look-up, and a caller that removes makes room for a new one |
| NodeHub.NodeHub.Get | nodes/nodehub.go:63-89 | a whole call, begun when no other Get of the address is in progress: creates or returns a live node, or removes the dead one; nothing else changes in the registry |
| NodeHub.NodeHub.Look | nodes/nodehub.go:65 | the look-up outside the lock |
| NodeHub.NodeHub.Decide | nodes/nodehub.go:66-88 | the second look and the creation in the lock, or the test of the node found and the entry into its Destroy |
| NodeHub.NodeHub.CloseQuit | nodes/aggregator.go:113-125 | the first caller to close the quit channel comes back from Destroy, any other panics |
| NodeHub.NodeHub.Delete | nodes/nodehub.go:52-56 | the only caller inside Destroy closes the channel and removes the node's address |
| NodeHub.NodeHub.Remove | nodes/nodehub.go:55 | forgets the address of the node that the caller destroyed |
| NodeHub.NodeHub.HeartbeatTest | nodes/node.go:135-138 | the loop goes on, to sleep, exactly when at most two probes in a row have failed, and otherwise ends with the node dead; the registry stays in order |
| NodeHub.NodeHub.HeartbeatProbe | nodes/node.go:140-162 | the probe joins the history, and retries, life and client count are those of the history; the registry stays in order |
| CpuList.ParseUintList | util/cpu/utils.go:51-85 | for every list and every number of rounds of the inner loop: the parser is done with them exactly when no reached range is endless and the reached ranges have no more numbers; then it refuses a non-empty list exactly when a part is malformed, and otherwise returns exactly the numbers that its parts denote, none negative |
| CpuList.EndsIff | util/cpu/utils.go:59-82 | no reached range is endless if and only if the loop over every part that is reached ends |
| CpuList.LoopEndsIff | util/cpu/utils.go:79-81 | counting through a range in 64 bits passes its end after some number of rounds exactly when the end is not the largest integer; otherwise the guard holds for ever |
| CpuList.WrittenRange | util/cpu/utils.go:67-79 | every range written in digits denotes itself, and the parser ends on it exactly when it stays below the largest integer |
| CpuList.AddPart | util/cpu/utils.go:59-82 | one part adds exactly its range, and is done exactly when the range is not endless and the rounds suffice |
| CpuList.AddRange | util/cpu/utils.go:79-81 | the loop with its 64-bit counter: ended after the given rounds exactly when the end is below the largest integer and not further away |
| CpuList.PartGrammar | util/cpu/utils.go:60-78 | a part is accepted exactly when it is a number, an ascending range of numbers, or zero to minus zero |
| CpuList.DenotesNatural | util/cpu/cgroup.go:73-80 | no part denotes a negative number, so the later conversion to uint64 loses nothing |
| CpuList.OrderAndDuplicates | util/cpu/utils.go:38-50 | lists with the same parts, in any order and number, parse alike |
| CpuList.SplitJoin | util/cpu/utils.go:57 | splitting at commas undoes joining |
| CpuList.JoinSplit | util/cpu/utils.go:57 | joining undoes splitting, and no part contains a comma |

## Left out

- NodeRegistry.RegistryInv: NodeHub.Clear, which nothing calls, is not a step; how long Destroy waits for an empty queue and for the workers is not modelled, only that it closes the channel before it returns.
- NodeHub.NodeHub.Get: one whole call; interleaved calls are Look, Decide, CloseQuit and Remove, and their runs are the subject of NodeRemoval.
- Pipeline.PoppedInOrder: holds for retries that are punctual, since it is false for late ones; a push that reports an error leaves the list as it was, and an error handler reads the array in one step.
- ShardedCache.Cache.Put: LRU-2 mode is chosen when the cache is made, not later.
- TokenRuns.RateConformance: waits and ticks are unbounded integers there; Take is TakeMaxDuration with the largest duration.
- The inspector callbacks of the cache, apart from the evicted entry, and the conversions of PutInt64 and GetInt64.
- The wait group of the aggregator: the theorems speak of workers that have left their loops, not of the moment at which Stop returns.
- Choosing a quantum for a floating-point rate, the bucket's Rate, and all CPU load averaging.
- The HTTP and WebSocket handlers, tokens, configuration, and the switch between polling and WebSocket clients: input, output and library calls.
- The peer directory in Redis and in the local cache, key expiry and the pause after a Redis error: foreign state without a promise to prove.
- Message encoding, logging, the skip-list map and the goroutine pool.
