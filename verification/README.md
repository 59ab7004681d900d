# Verified model of the request-scheduling layer

The in-process structures of torch-inference that decide which request runs, where and
when, and what is remembered. Each source struct that updates its fields is a class here;
its methods are proved against functions on plain values, and the properties are lemmas
about those functions over whole runs or every interleaving.

| file | models |
|---|---|
| `PriorityOrder.dfy`, `PriorityQueue.dfy` | the request queue: order, binary heap, tickets, cached oldest time; one class stands for the two equal structs of the batchers |
| `InflightBatch.dfy`, `InflightProtocol.dfy` | the inflight batcher: its atomic sections, its classes, and every interleaving of its callers |
| `BatchProcessor.dfy` | the bounded batch with published scalars |
| `CanonicalJson.dfy`, `JsonParser.dfy`, `DedupKey.dfy` | the canonical printer, the parser that undoes it, the deduplication key |
| `LruShard.dfy`, `Deduplicator.dfy`, `RequestDeduplicator.dfy` | expiring LRU shards, whole traces of them, the struct |
| `CacheEviction.dfy`, `TtlCache.dfy` | sampled eviction, the bounded TTL cache against an unbounded map |
| `WorkerPool.dfy`, `AutoScaler.dfy`, `WorkerProtocol.dfy`, `WorkerPoolStruct.dfy` | worker positions, the scaler loop, every interleaving, the structs |
| `ModelPool.dfy`, `Nms.dfy`, `TensorPool.dfy`, `Monitor.dfy` | least-loaded routing, non-maximum suppression, tensor and buffer pools, request statistics |

Time is a number passed in. Library structures are given as follows: the binary heap is
implemented and verified; the LRU list, the concurrent maps, the bounded queue and the
semaphore are sequences, maps and counters with the operations the code calls. A map's
iteration order and the random shuffle are arbitrary; so is the order an unstable sort gives
to equal keys. Text is a sequence of Unicode scalars, encoded to UTF-8 where it is hashed.

Where a class carries a ghost list of the calls made so far, its invariant says that its
fields are what the trace model computes from that list, so the trace lemmas speak about the
class.

Findings, each proved by the members named:

- `remove_idle_worker` pops its candidate before examining it. A candidate that is no longer
  idle leaves the queue for good (`WorkerPools.RemovalIsRelabelling`,
  `WorkerPools.PausedCandidateIsLost`).
- A worker keeps its id when a removal below shifts its position, so its release then requeues
  another position (`WorkerPools.IdNamesPosition`, `WorkerPools.ReleaseKeepsSettled`).
- The batch processor's epoch is first read after the first request is stamped, so its
  lock-free timeout test can lag a scan (`BatchProcessors.EpochLagHappens`,
  `BatchProcessors.ShouldProcessIsScan`); it never does exactly under
  `BatchProcessors.DecidesLikeScanIff`.
- Tensor shapes with a zero dimension, a ninth dimension or one past 32 bits can share a key
  with a shape of another size (`TensorPools.AcquireFitsIff`, `TensorPools.KeyCollides`).
- A buffer whose length is not its size class can be handed out too short
  (`TensorPools.ForeignBufferIsShort`, `TensorPools.BuffersSufficeIff`).
- `src/cache.rs:61-63` speaks of one budget for the JSON and byte entries. If that means their
  sum, the code does not keep it: each map has the whole bound to itself
  (`TtlCaches.TwoInACacheOfOne`, `TtlCaches.BothFull`), and `TtlCaches.BudgetSharedIff` says
  when the sum stays within it. `clear` and `cleanup_expired` leave the bytes alone
  (`TtlCaches.SidesAreIndependent`).
- The moving average under constant latency can stall up to nine below it
  (`ModelPools.TruncationStalls`); it reaches it exactly under `ModelPools.AverageReachesIff`.

## Model

| member | source | states |
|---|---|---|
| `PriorityOrder.RankedUnique` | src/inflight_batch.rs:39-46 | Priority descending, first come first within a priority, is a strict order: a bag of requests has one ranked arrangement, so drain order cannot depend on heap layout |
| `PriorityOrder.HeapPush` | src/inflight_batch.rs:78 | A push keeps the heap property and adds exactly the one entry |
| `PriorityOrder.HeapPop` | src/inflight_batch.rs:97-98 | A pop removes one entry that beats every entry left, from any heap layout |
| `PriorityOrder.PopIsHead` | src/inflight_batch.rs:94-101 | The popped entry is the head of the ranked list and the heap left behind holds its tail |
| `PriorityQueues.PushKeepsSound` | src/inflight_batch.rs:73-85 | After a push the cached oldest time is the minimum over the heap, the list stays ranked and tickets stay unique |
| `PriorityQueues.DrainKeepsSound` | src/inflight_batch.rs:94-109 | After a partial drain the recomputed oldest time is the minimum over what remains |
| `PriorityQueues.OldestIgnoresOrder` | src/inflight_batch.rs:102-107 | The minimum found over the heap's iteration order is the minimum of the ranked list |
| `PriorityQueues.LeaveKeepsFifo` | src/inflight_batch.rs:94-101 | Requests leaving from the front never pass an equal-priority request queued before them |
| `PriorityQueues.PushKeepsFifo` | src/inflight_batch.rs:73-78 | An arrival never gets ahead of an equal-priority request that already left |
| `PriorityQueues.RunInvariant` | src/inflight_batch.rs:73-109 | Over every sequence of pushes, partial and full drains: cached oldest equals the minimum, and equal-priority requests leave in arrival order over the whole run |
| `PriorityQueues.TicketsNameArrivals` | src/inflight_batch.rs:73-78 | Over every sequence of operations a ticket is the request's place among the arrivals |
| `PriorityQueues.HighestLeaveFirst` | src/inflight_batch.rs:39-46 | Whatever a drain takes has at least the priority of whatever it leaves, and among equals arrived earlier; the same holds inside the batch |
| `PriorityQueues.HighestRequestsFirst` | src/inflight_batch.rs:94-109 | A drain hands over as many requests as fit, priorities not increasing, none below one left behind |
| `PriorityQueues.WaitMeans` | src/inflight_batch.rs:120-122 | A wait counts from the enqueue instant and is zero when the clock reads earlier |
| `PriorityQueues.BatchesConcatenate` | src/inflight_batch.rs:206-222 | With no arrivals, successive batches concatenate to the one ranked list |
| `PriorityQueues.RankDecidesBatch` | src/inflight_batch.rs:206-222 | With no arrivals, a request with exactly r requests ahead of it leaves in batch r / max_batch_size |
| `PriorityQueues.PriorityQueue.Push` | src/inflight_batch.rs:73-85 | The heap-backed push refines insertion into the ranked list, and keeps every invariant |
| `PriorityQueues.PriorityQueue.DrainAll` | src/inflight_batch.rs:87-92 | Yields everything pending in ranked order and leaves the queue empty |
| `PriorityQueues.PriorityQueue.DrainUpTo` | src/inflight_batch.rs:94-109 | Yields the first max pending requests in ranked order and leaves exactly the rest, with the oldest time refreshed |
| `PriorityQueues.PriorityQueue.ScanOldest` | src/inflight_batch.rs:103-107 | The scan finds the minimum enqueue time, or none for an empty heap |
| `PriorityQueues.PriorityQueue.Clear` | src/batch.rs:90-93 | Drops everything pending, keeps the ticket counter |
| `PriorityQueues.PriorityQueue.OldestAge` | src/inflight_batch.rs:120-122 | The age reported is the largest age of any pending request, none exactly when nothing is pending |
| `InflightBatch.InflightBatchProcessor.constructor` | src/inflight_batch.rs:148-162 | All permits available, all counters zero, queue empty |
| `InflightBatch.InflightBatchProcessor.AddRequest` | src/inflight_batch.rs:165-180 | Exactly one request enters the queue, under the next ticket; the stored depth goes up by one and the peak is the larger of the two |
| `InflightBatch.InflightBatchProcessor.Peek` | src/inflight_batch.rs:186-198 | The O(1) decision is the full scan's: something is pending, and the batch is full or some request has waited out the timeout |
| `InflightBatch.InflightBatchProcessor.TryAcquirePermit` | src/inflight_batch.rs:200-204 | Takes a permit exactly when one is free and never blocks |
| `InflightBatch.InflightBatchProcessor.Drain` | src/inflight_batch.rs:206-222 | Re-checks emptiness under the lock, else takes the highest-ranked requests and counts the batch in flight |
| `InflightBatch.InflightBatchProcessor.TryFormBatch` | src/inflight_batch.rs:183-232 | Undisturbed, a batch is formed exactly when the peek says so and a permit is free, else nothing changes; it holds as many requests as fit, priorities not increasing, none below one left pending |
| `InflightBatch.InflightBatchProcessor.ClearQueue` | src/inflight_batch.rs:295-305 | Removes every pending request and returns how many there were |
| `InflightBatch.InflightBatchGuard.Complete` | src/inflight_batch.rs:351-369 | Records the statistics, lowers the counter once and returns the permit once |
| `InflightBatch.InflightBatchGuard.Drop` | src/inflight_batch.rs:372-383 | A guard that never completed lowers the counter; every guard returns its permit |
| `InflightBatch.PeekIsScan` | src/inflight_batch.rs:186-198 | On any sound queue the O(1) peek fires exactly when the batch is full or a scan finds a request that waited out the timeout |
| `InflightProtocol.PermitsStep` | src/inflight_batch.rs:200-221 | Every atomic section keeps available + held permits = max_inflight_batches and the counter equal to the undropped guards |
| `InflightProtocol.ConservedStep` | src/inflight_batch.rs:165-232 | Every atomic section keeps added = pending + in batches + finished + cleared, as bags |
| `InflightProtocol.PeakStep` | src/inflight_batch.rs:171-173 | The recorded peak is the longest queue ever, unless an adder still carries that length |
| `InflightProtocol.StepInvariant` | src/inflight_batch.rs:165-305 | The whole protocol invariant survives any step of any caller |
| `InflightProtocol.RunInvariant` | src/inflight_batch.rs:165-383 | Every state reachable by any interleaving of any number of callers satisfies the invariant, ordering included |
| `InflightProtocol.InflightBounded` | src/inflight_batch.rs:200-221 | In every interleaving inflight_batches <= held permits <= max_inflight_batches |
| `InflightProtocol.RestRestoresEverything` | src/inflight_batch.rs:351-383 | At rest all permits are back, each returned once, completed or dropped; peak equals the longest queue ever; statistics add up |
| `InflightProtocol.BatchSizes` | src/inflight_batch.rs:206-222 | Despite the gap between peek and drain every batch has 1 to max_batch_size requests |
| `InflightProtocol.DrainTakesHighest` | src/inflight_batch.rs:206-222 | In every interleaving a drain splits the queue so that all it takes precedes all it leaves, by priority and then arrival, and fills the batch or empties the queue |
| `InflightProtocol.SectionsMakeCalls` | src/inflight_batch.rs:165-232 | The atomic sections of add_request and try_form_batch, run without interruption, do what the calls do |
| `InflightProtocol.NoRequestTwice` | src/inflight_batch.rs:206-222 | A request in a live batch is in no other batch and not pending, finished or cleared |
| `BatchProcessors.RunAgrees` | src/batch.rs:141-254 | After any sequence of calls the published depth and oldest time are those of the queue, which never exceeds max_batch_size |
| `BatchProcessors.TimeoutTable` | src/batch.rs:193-208 | A queue of up to 2, 5, 10 or more requests waits the whole timeout, a half, a quarter or an eighth, rounded down; the whole of it when not adaptive |
| `BatchProcessors.ShouldProcessIsScan` | src/batch.rs:170-191 | The lock-free decision equals a full scan of the queue except in the stated epoch lag, where it is late and never early |
| `BatchProcessors.RunDecidesLikeScan` | src/batch.rs:141-254 | After any sequence of calls and at any time the decision is the scan outside the epoch lag, and false on an empty batch |
| `BatchProcessors.DecidesLikeScanIff` | src/batch.rs:154-191 | The decision equals the scan at every moment exactly when the oldest request is stamped after the epoch, or depth is below the minimum or at the maximum, or the timeout is zero |
| `BatchProcessors.AfterEpochIsScan` | src/batch.rs:154-191 | With every timestamp after the epoch the decision and the scan agree |
| `BatchProcessors.EpochLagHappens` | src/batch.rs:154-159 | A request stamped before the epoch is first read makes the two differ |
| `BatchProcessors.AddKeepsReady` | src/batch.rs:141-208 | One more request never makes a ready batch unready: the timeout shrinks and the oldest time does not move later |
| `BatchProcessors.ReadinessIsStable` | src/batch.rs:141-208 | Once ready, the batch stays ready under passing time and any further requests until taken or cleared |
| `BatchProcessors.BatchProcessor.AddRequest` | src/batch.rs:141-168 | Refuses exactly at capacity, else queues and republishes; reports whether the batch is now full |
| `BatchProcessors.BatchProcessor.ShouldProcessBatch` | src/batch.rs:170-191 | Reads only the published scalars; with timestamps after the epoch the answer is the full scan's |
| `BatchProcessors.BatchProcessor.TakeBatch` | src/batch.rs:214-221 | Returns everything queued in ranked order, so with priorities not increasing, and resets both scalars |
| `BatchProcessors.BatchProcessor.Clear` | src/batch.rs:248-254 | Empties the queue and resets both scalars |
| `CanonicalJson.SortIsSorted` | src/dedup.rs:173-174 | The member sort is a strictly ascending permutation |
| `CanonicalJson.BeforeMeans` | src/dedup.rs:174 | Keys compare at their first difference, the smaller scalar first, and a prefix comes before its extensions |
| `CanonicalJson.SameIsNormal` | src/dedup.rs:170-200 | Equality up to object key order at every level is equality of normal forms |
| `CanonicalJson.SortCommutes` | src/dedup.rs:173-183 | Sorting keys before printing the values is sorting the normalised members |
| `CanonicalJson.WriteCanonicalJson` | src/dedup.rs:170-200 | Appends the compact text of the normal form to the buffer and changes nothing before it |
| `CanonicalJson.WriteObject` | src/dedup.rs:172-186 | Objects: sorted keys, commas between members only, whatever the iteration order |
| `CanonicalJson.WriteArray` | src/dedup.rs:187-196 | Arrays: items in order, commas between items only |
| `JsonParser.PlainRoundTrip` | src/dedup.rs:170-200 | A printed value followed by any text that cannot extend a number parses to itself and leaves that text |
| `JsonParser.DecodeText` | src/dedup.rs:180 | String escaping is undone by an RFC 8259 string parser |
| `CanonicalJson.EscapeShape` | src/dedup.rs:180 | A character is written as itself unless it must be escaped, with the short escape where there is one, else with lower-case digits |
| `JsonParser.CanonicalRoundTrip` | src/dedup.rs:159-200 | Parsing the canonical text gives back the value up to object key order |
| `JsonParser.CanonicalIsUnambiguous` | src/dedup.rs:159-200 | Two values print alike exactly when they are equal up to object key order |
| `DedupKeys.Fnv1a` | src/dedup.rs:16-23 | The wrapping 64-bit loop computes the hash that FnvDefinition characterises |
| `DedupKeys.FnvDefinition` | src/dedup.rs:13-23 | The published FNV-1a: the 64-bit offset basis, then for each byte exclusive-or and the low 64 bits of the product with the prime |
| `DedupKeys.FnvVector` | src/dedup.rs:16-23 | The published hash of the one-byte text a |
| `DedupKeys.Utf8RoundTrip` | src/dedup.rs:63-69 | The bytes hashed are UTF-8: an RFC 3629 decoder gives the text back |
| `DedupKeys.FnvResumes` | src/dedup.rs:16-23 | Hashing a concatenation resumes from the hash of its first part |
| `DedupKeys.ShardIndex` | src/dedup.rs:62-64 | A key is routed to one of 16 shards, the remainder of its FNV-1a hash by 16 |
| `DedupKeys.GenerateKey` | src/dedup.rs:66-76 | The key is the model, a colon, 16 digits that read as the hash of the canonical inputs, a colon, and digits that read as the number of whole ten-second spans |
| `DedupKeys.HexReads` | src/dedup.rs:74 | The hexadecimal digits read back as the hash |
| `DedupKeys.HexIsLowerCase` | src/dedup.rs:74 | The hexadecimal digits are lower case |
| `DedupKeys.DecimalReads` | src/dedup.rs:74 | The decimal digits read back as the window, without leading zeros |
| `DedupKeys.KeysAgree` | src/dedup.rs:66-76 | Two keys are equal exactly when model, input hash and window are, even with separators inside model names |
| `DedupKeys.KeyIgnoresMemberOrder` | src/dedup.rs:66-76 | Inputs equal up to object key order share a key within a window |
| `LruShards.PutKeepsIncluded` | src/dedup.rs:100-111 | Insertion at two capacities keeps the smaller list inside the larger, in order, although they evict different entries |
| `LruShards.LookKeepsIncluded` | src/dedup.rs:80-97 | A hit in the smaller list is the same hit in the larger, and a promotion in one list only keeps the inclusion |
| `LruShards.UnexpiredKeepsIncluded` | src/dedup.rs:125-141 | Cleanup keeps the inclusion and does not widen the gap in sizes |
| `Deduplicators.PerShard` | src/dedup.rs:50-54 | Each shard has at least one slot, the shards together hold at least max_entries, and no smaller even split would |
| `Deduplicators.TraceIncluded` | src/dedup.rs:50-141 | Over any trace a shard of smaller capacity is included in one of larger capacity |
| `Deduplicators.LargerKeepsHits` | src/dedup.rs:50-141 | Every hit with max_entries m is a hit with the same value with any m' >= m |
| `Deduplicators.DeduplicatorSize` | src/dedup.rs:143-145 | size() <= 16 * max(1, ceil(max_entries / 16)) after any trace |
| `Deduplicators.HitIsLastSet` | src/dedup.rs:80-97 | A hit is the result of the last set of the key, not invalidated or cleared since, with ttl > 0 and now < time set + ttl, whatever the clock did |
| `Deduplicators.CleanupKeepsAlive` | src/dedup.rs:125-141 | After a cleanup a shard holds exactly its entries with ttl > 0 and now < time set + ttl |
| `Deduplicators.DisplacedCount` | src/dedup.rs:100-111 | The entry a full shard gives up was crowded out by per-shard-capacity distinct other keys |
| `Deduplicators.TraceRecent` | src/dedup.rs:80-141 | Over any trace with a non-decreasing clock every list is ordered by recency and every missing fresh key is accounted for by displacement |
| `Deduplicators.DisplacementNeedsCapacity` | src/dedup.rs:80-141 | With a non-decreasing clock, the last set of a key with now < time set + ttl still hits unless at least per-shard-capacity distinct other keys of its shard were set or hit since its last touch |
| `RequestDeduplicators.RequestDeduplicator.constructor` | src/dedup.rs:50-59 | Sixteen empty shards of the computed capacity |
| `RequestDeduplicators.RequestDeduplicator.Get` | src/dedup.rs:80-97 | A hit is the last value set, younger than its ttl, and moves to the front of its shard; otherwise the key leaves it; no other shard or entry changes |
| `RequestDeduplicators.RequestDeduplicator.Set` | src/dedup.rs:100-111 | The new entry goes to the front of its shard, in place of any old one; a full shard displaces its least recently used |
| `RequestDeduplicators.RequestDeduplicator.Invalidate` | src/dedup.rs:113-116 | Takes exactly the key out of its shard and touches no other |
| `RequestDeduplicators.RequestDeduplicator.Clear` | src/dedup.rs:118-123 | Empties every shard |
| `RequestDeduplicators.RequestDeduplicator.Sweep` | src/dedup.rs:131-139 | Collecting the expired keys and popping them one by one leaves exactly the unexpired entries in order |
| `RequestDeduplicators.RequestDeduplicator.CleanupExpired` | src/dedup.rs:125-141 | Every shard keeps exactly its entries younger than their ttl |
| `RequestDeduplicators.RequestDeduplicator.Size` | src/dedup.rs:143-145 | Sums the shard lengths of the trace model |
| `RequestDeduplicators.SweepIsFilter` | src/dedup.rs:131-139 | Popping the collected keys is filtering by freshness |
| `CacheEvictions.SampleSizeRange` | src/cache.rs:196-206 | The sample size lies in 20..100 without the clamp ever acting, meets both documented extremes, and never shrinks as misses grow |
| `CacheEvictions.SampleSizeExact` | src/cache.rs:196-206 | The sample size is 20 plus the misses' share of 80, rounded down, in whole-number terms |
| `CacheEvictions.AgeTest` | src/cache.rs:53-56 | An entry expires once now exceeds its timestamp plus ttl; under a clock that went back, by the wrapped difference |
| `CacheEvictions.VictimUnique` | src/cache.rs:249-284 | At most one candidate is first in eviction order, so the shuffle cannot change the victim |
| `CacheEvictions.VictimRank` | src/cache.rs:233-284 | With n live entries and m sampled the victim is among the n-m+1 lowest ranked, and the lowest of all when n <= 2 * sample size |
| `CacheEvictions.VictimIsLoser` | src/cache.rs:271-284 | Field by field: the victim is unread if any candidate is, least recently used among its kind, earliest inserted among equals |
| `CacheEvictions.FullSampleIsGlobal` | src/cache.rs:233-284 | With all live entries sampled the victim is that of the whole cache |
| `CacheEvictions.SelectVictim` | src/cache.rs:271-284 | The two-pass search finds the minimum of (was read, last access, insertion order), for any shuffle |
| `CacheEvictions.MinIndex` | src/cache.rs:271-284 | The filtered minimum search, none exactly when the filter leaves nothing |
| `CacheEvictions.Collect` | src/cache.rs:233-244 | The filter-and-take loop yields the first live keys of the iteration order |
| `CacheEvictions.OldestInsertion` | src/cache.rs:257-262 | The fallback finds the first-inserted entry of a non-empty map |
| `TtlCaches.FoundIsTrue` | src/cache.rs:117-163 | Whatever was evicted and whatever the clock did, a value found is the unbounded map's answer at that time, for JSON and for bytes |
| `TtlCaches.FoundIsLastWrite` | src/cache.rs:141-163 | A JSON value found is that of the last set of the key, not removed or cleared since, with now <= time set + ttl on a clock that did not go back |
| `TtlCaches.FoundIsLastBytes` | src/cache.rs:120-134 | The same for the byte side |
| `TtlCaches.ExpiryLasts` | src/cache.rs:53-56 | On a 64-bit clock that does not go back an expired entry stays expired |
| `TtlCaches.ExactWithoutEvictions` | src/cache.rs:141-189 | With a non-decreasing clock, a side from which nothing was evicted, JSON or bytes, answers exactly as the unbounded map |
| `TtlCaches.HitProtects` | src/cache.rs:152-158 | A hit later than every other access makes the entry the last to be evicted |
| `TtlCaches.NewcomerIsProbationary` | src/cache.rs:173-185 | A new entry is evicted before every entry ever read and after every unread one touched no later |
| `TtlCaches.HitsAndMisses` | src/cache.rs:120-163 | Every look-up of either side is one hit or one miss |
| `TtlCaches.ReadMeans` | src/cache.rs:141-163 | A look-up finds an entry at most its ttl old, counts a hit and the access and keeps the rest; otherwise it drops the key and counts a miss |
| `TtlCaches.HitsExact` | src/cache.rs:120-163 | Hits count exactly the look-ups that found something, misses the others |
| `TtlCaches.WriteMakesRoom` | src/cache.rs:165-185 | A write to a stored key or with room to spare evicts nobody and changes no other key; otherwise exactly the victim goes |
| `TtlCaches.BytesMakeRoom` | src/cache.rs:92-115 | The same for the byte side |
| `TtlCaches.RunInBounds` | src/cache.rs:92-189 | Each of the two maps stays within max(1, max_size) after any sequence of atomic calls |
| `TtlCaches.SidesAreIndependent` | src/cache.rs:58-70 | Either map is what its own calls alone would make it: no budget, entry, clear or cleanup is shared |
| `TtlCaches.BudgetSharedIff` | src/cache.rs:61-96 | Both sides together stay within max(1, max_size), in every run writing given keys, exactly when the two key sets, each cut to that bound, add up to no more |
| `TtlCaches.BothFull` | src/cache.rs:61-96 | For every max_size some run fills both sides at once, each to its bound or to all its keys |
| `TtlCaches.TwoInACacheOfOne` | src/cache.rs:61-96 | A cache of one holds one JSON entry and one byte entry |
| `TtlCaches.RunStamped` | src/cache.rs:173-185 | Insertion orders are pairwise distinct and below the counter |
| `TtlCaches.Cache.Get` | src/cache.rs:141-163 | Answers an entry at most its ttl old, counting a hit and the access, or drops it and counts a miss |
| `TtlCaches.Cache.EvictSampleSize` | src/cache.rs:196-206 | Computes the adaptive sample size |
| `TtlCaches.Cache.EvictLru` | src/cache.rs:217-297 | Gives up exactly one entry of a non-empty cache: the first in eviction order of the sample, that of all live entries if they fit the sample, or the first inserted when nothing is live; depends on the shuffle in no way |
| `TtlCaches.Cache.Set` | src/cache.rs:165-189 | Evicts exactly one chosen entry when a new key meets a full cache and none otherwise, then stores; no other entry changes |
| `TtlCaches.Cache.Remove` | src/cache.rs:326-329 | Removes one JSON entry |
| `TtlCaches.Cache.Clear` | src/cache.rs:331-334 | Clears the JSON side only |
| `TtlCaches.Cache.CleanupExpired` | src/cache.rs:340-353 | Removes exactly the JSON entries older than their ttl |
| `TtlCaches.Cache.GetBytes` | src/cache.rs:120-134 | Answers a live byte entry, or drops an expired one |
| `TtlCaches.Cache.SetBytes` | src/cache.rs:92-115 | Gives up the iterator's first entry when a new key meets a full side and none otherwise, then stores; no other entry changes |
| `TtlCaches.Cache.RemoveBytes` | src/cache.rs:137-139 | Removes one byte entry |
| `TtlCaches.Cache.Size` | src/cache.rs:336-338 | The JSON side's size, at most max(1, max_size) |
| `WorkerPools.LastIdle` | src/worker_pool.rs:268-275 | The backwards scan finds the last idle position, none exactly when nobody is idle |
| `WorkerPools.RelabelKeepsNames` | src/worker_pool.rs:278-293 | Read through the shortened vector the relabelled queue names the same workers in the same order, less the removed one |
| `WorkerPools.RemovalIsRelabelling` | src/worker_pool.rs:247-297 | Removal loses no queued worker exactly when its popped candidate is not stale |
| `WorkerPools.PausedCandidateIsLost` | src/worker_pool.rs:262-276 | With every worker paused a removal fails and still drops the front worker from the queue |
| `WorkerPools.RemovalKeepsSettled` | src/worker_pool.rs:247-297 | If the queue lists exactly the idle positions once each, removal takes the longest-idle worker and leaves such a queue; it fails exactly at the limit or with nobody idle, changing nothing |
| `WorkerPools.AddKeepsSettled` | src/worker_pool.rs:227-244 | Adding keeps a settled pool settled, and its ignored push never fails |
| `WorkerPools.AcquireKeepsSettled` | src/worker_pool.rs:300-314 | Acquiring from a settled pool hands out the longest-idle worker and keeps the pool settled |
| `WorkerPools.ReleaseKeepsSettled` | src/worker_pool.rs:317-327 | Releasing a busy worker requeues its id last and uncounts it; the pool stays settled exactly when the id still names the worker's position |
| `WorkerPools.IdNamesPosition` | src/worker_pool.rs:227-297 | After any run of additions and removals a worker's id is its position plus the number of workers removed below it since it joined, so it names the position exactly when there was none |
| `WorkerPools.ResumeUndoesPause` | src/worker_pool.rs:488-509 | Resume after pause restores every state exactly when nobody was paused before |
| `AutoScalers.TickStep` | src/worker_pool.rs:364-401 | One tick moves the count by the documented rule, keeps busy workers and keeps the pool settled |
| `AutoScalers.CountWithinLimits` | src/worker_pool.rs:364-401 | From any pool, over any run of ticks beside acquires, releases, pauses and resumes, and however a tick's two halves fall between other calls, the worker count stays within the lower limit and max_workers once within them, and never leaves them further |
| `AutoScalers.HighLoadFills` | src/worker_pool.rs:364-401 | From any pool, paused workers and live traffic included, k ticks that see a long queue give min(max, n + k) workers |
| `AutoScalers.LowLoadDrains` | src/worker_pool.rs:388-400 | Under a constant low queue the count falls one a tick to min(n, max(lower limit, active + 1)) and stays |
| `WorkerProtocol.StepPartition` | src/worker_pool.rs:227-327 | Every atomic section keeps queued ids and ids in hand a partition of the positions |
| `WorkerProtocol.RunPartition` | src/worker_pool.rs:227-327 | In every interleaving of add, acquire, release, pause and resume that partition holds |
| `WorkerProtocol.NoWorkerTwice` | src/worker_pool.rs:300-327 | No worker is held twice, and none held is queued |
| `WorkerProtocol.NothingIsLost` | src/worker_pool.rs:227-327 | The ignored queue pushes never drop an id, and no look-up misses |
| `WorkerProtocol.CounterSettles` | src/worker_pool.rs:300-327 | active_count settles to the number of workers out, and everyone else is queued |
| `WorkerProtocol.SectionsMakeCalls` | src/worker_pool.rs:227-327 | The atomic sections of add, acquire and release, run without interruption, do what the sequential calls do; pause and resume go worker by worker |
| `WorkerProtocol.QuietIsSettled` | src/worker_pool.rs:227-327 | After any interleaving of adds, acquires and releases, once nothing is halfway, the queue lists exactly the idle positions once each, everyone else is processing, and the counter counts them |
| `WorkerPoolStruct.WorkerPool.AddWorker` | src/worker_pool.rs:227-244 | Adds a fresh idle worker at the next position exactly below the maximum |
| `WorkerPoolStruct.WorkerPool.AcquireWorker` | src/worker_pool.rs:300-314 | Hands out the front of the queue, marked busy and counted; a paused worker too |
| `WorkerPoolStruct.WorkerPool.ReleaseWorker` | src/worker_pool.rs:317-327 | Accepts any worker, even a removed one, and a zero counter, which wraps: marks it idle, uncounts it, requeues the id it joined with, which is its position exactly when nobody below left since |
| `WorkerPoolStruct.WorkerPool.PauseAll` | src/worker_pool.rs:488-497 | Pauses exactly the idle workers, worker by worker, and leaves the queue alone |
| `WorkerPoolStruct.WorkerPool.ResumeAll` | src/worker_pool.rs:500-509 | Resumes exactly the paused workers |
| `WorkerPoolStruct.WorkerPool.ScanIdle` | src/worker_pool.rs:268-275 | The loop finds the last idle worker |
| `WorkerPoolStruct.WorkerPool.Renumber` | src/worker_pool.rs:285-293 | Draining and refilling the queue shifts every id past the removed one, and no push fails |
| `WorkerPoolStruct.WorkerPool.RemoveIdleWorker` | src/worker_pool.rs:247-297 | Removes only an idle worker object, leaves the others in order and the queue as modelled, in every branch |
| `WorkerPoolStruct.WorkerPool.ScalerTick` | src/worker_pool.rs:364-401 | The loop body performs the modelled tick |
| `ModelPools.LeastLoaded` | src/model_pool.rs:152-163 | The selected instance has the least score, and is the first such |
| `ModelPools.RoutingBalances` | src/model_pool.rs:107-163 | After any run of acquires without releases every used instance scores at most 500 above every other, and each acquire is counted once |
| `ModelPools.ActiveCountsClose` | src/model_pool.rs:50-57 | Active counts of a used instance and any other differ by at most 1 + latency / 500 |
| `ModelPools.ActiveIsHeld` | src/model_pool.rs:31-48 | Over any run of routed acquires and releases that follow an acquire of their instance, each active count moves by its acquires less its releases |
| `ModelPools.ReleaseUndoesAcquire` | src/model_pool.rs:31-48 | A release undoes what its acquire did to the active count |
| `ModelPools.AverageWithin` | src/model_pool.rs:36-48 | The truncating average stays within the least and greatest recorded latency |
| `ModelPools.AverageSettles` | src/model_pool.rs:36-48 | Under constant latency x the average reaches [x-9, x] within a stated number of samples and stays |
| `ModelPools.TruncationStalls` | src/model_pool.rs:45 | Nine below, truncation stops the average |
| `ModelPools.AverageReachesIff` | src/model_pool.rs:36-48 | Under constant latency x the average ever equals x, and then for good, exactly when it started unset or at x or more |
| `ModelPools.InstanceMetrics.StartRequest` | src/model_pool.rs:31-34 | One more active and one more total request |
| `ModelPools.InstanceMetrics.EndRequest` | src/model_pool.rs:36-48 | One fewer active request, wrapping below zero, and an average of nine tenths old and one tenth new, rounded down, or the latency if there was none |
| `ModelPools.ModelPool.AddInstance` | src/model_pool.rs:85-103 | Appends a fresh instance below the per-model maximum, else changes nothing |
| `ModelPools.ModelPool.SelectLeastLoaded` | src/model_pool.rs:152-163 | The loop finds the first least-loaded instance |
| `ModelPools.ModelPool.Acquire` | src/model_pool.rs:107-149 | Starts a request on the first least-loaded instance and touches no other; none exactly when the model has no instance |
| `ModelPools.ModelPool.Release` | src/model_pool.rs:166-169 | Ends the request on that instance's metrics only: its active count goes down by one |
| `NonMaximumSuppression.IouLaws` | benches/detection_bench.rs:31-43 | iou is symmetric and in [0,1] for all boxes, degenerate ones included, and 1 for a proper box with itself |
| `NonMaximumSuppression.IouIsAreaRatio` | benches/detection_bench.rs:31-43 | For boxes with ordered edges iou is the area of the box of common points over the area covered together |
| `NonMaximumSuppression.ApartMeansZero` | benches/detection_bench.rs:31-43 | Boxes without a common point have iou 0 |
| `NonMaximumSuppression.RuleDeterminesResult` | benches/detection_bench.rs:113-133 | Every selection that keeps a box exactly when no earlier kept same-class box overlaps it above the threshold selects the same list, the result |
| `NonMaximumSuppression.GreedyObeysRule` | benches/detection_bench.rs:113-133 | The result is such a selection: each box kept has no earlier kept suppressor, and each box dropped has one |
| `NonMaximumSuppression.KeptAreApart` | benches/detection_bench.rs:113-133 | No two kept boxes suppress one another |
| `NonMaximumSuppression.GreedyIsIdempotent` | benches/detection_bench.rs:113-133 | Suppressing a result again keeps every box, in whatever order the unstable sort presents them |
| `NonMaximumSuppression.ClassesAreIndependent` | benches/detection_bench.rs:125-127 | The result splits per class |
| `NonMaximumSuppression.NmsMeans` | benches/detection_bench.rs:113-133 | The result is drawn from the input, best score first, no two of a class overlap above the threshold, and every other box is overlapped above it by a kept one of its class that scores no less |
| `NonMaximumSuppression.Suppress` | benches/detection_bench.rs:116-132 | The nested loops over the flag array compute the greedy list |
| `NonMaximumSuppression.Nms` | benches/detection_bench.rs:113-133 | For any outcome of the unstable sort the result is the greedy list of that descending order, with all that NmsMeans says of it |
| `TensorPools.KeyInjective` | src/tensor_pool.rs:33-46 | For rank <= 8 and dimensions in 1..2^32-1 equal packed keys mean equal shapes |
| `TensorPools.ProductLaws` | src/tensor_pool.rs:34 | The element count is 1 for a scalar and multiplicative |
| `TensorPools.KeyCollides` | src/tensor_pool.rs:33-46 | A zero, ninth or over-wide dimension shares a key with another shape |
| `TensorPools.AcquireFits` | src/tensor_pool.rs:69-100 | Over any run where tensors return under their own shape, acquire gives exactly total_size elements |
| `TensorPools.AcquireFitsIff` | src/tensor_pool.rs:69-100 | That holds over a set of shapes exactly when shapes of one key have one size |
| `TensorPools.DisagreementMisfits` | src/tensor_pool.rs:69-100 | Two shapes sharing a key but not a size do misfit on reuse |
| `TensorPools.TensorsConserved` | src/tensor_pool.rs:69-100 | allocations = pooled + held + dropped over any run, and allocations + reuses = acquires |
| `TensorPools.BucketLaws` | src/tensor_pool.rs:148-156 | Bucketing is at least the request, the least class that fits, monotone and idempotent |
| `TensorPools.TakenIsEnough` | src/tensor_pool.rs:194-204 | From a pool whose buffers fit their shelves an acquire gets at least min_size |
| `TensorPools.ReturnFitsIff` | src/tensor_pool.rs:207-214 | After a release into a fitting pool with room, acquire returns at least min_size for every min_size exactly when the returned buffer is as long as the class its capacity puts it in |
| `TensorPools.BuffersSuffice` | src/tensor_pool.rs:194-214 | Over any run in which buffers come back as long as their class, a request gets at least min_size bytes |
| `TensorPools.BuffersSufficeIff` | src/tensor_pool.rs:194-214 | Every request of every run that gives back only a given set of buffers gets at least min_size exactly when each of them is as long as its class |
| `TensorPools.WholeIffClass` | src/tensor_pool.rs:148-214 | A vector is as long as its class exactly when it is full and its capacity is a size class or above them all; every buffer the pool allocates is |
| `TensorPools.BuffersConserved` | src/tensor_pool.rs:194-214 | For byte buffers too: allocations = shelved + held + dropped over any run, and allocations + reuses = acquires |
| `TensorPools.ForeignBufferIsShort` | src/tensor_pool.rs:194-214 | A foreign 1000-byte buffer is handed out for a 1024-byte request |
| `TensorPools.TensorShape.constructor` | src/tensor_pool.rs:33-40 | The loops compute the element count and the zero-padded key |
| `TensorPools.TensorPool.Acquire` | src/tensor_pool.rs:69-82 | Reuses the last tensor released under the key, else allocates total_size zeros, and counts which |
| `TensorPools.TensorPool.Release` | src/tensor_pool.rs:91-100 | Keeps the tensor below the limit, else drops it |
| `TensorPools.BufferPool.Acquire` | src/tensor_pool.rs:194-204 | Takes the last buffer of the bucket, else allocates the bucket's size, and counts which; at least min_size if only whole buffers came back so far |
| `TensorPools.BufferPool.Release` | src/tensor_pool.rs:207-214 | Shelves the buffer by its capacity below the limit, else drops it |
| `Monitors.EndpointsExact` | src/monitor.rs:74-122 | Over any run every endpoint's calls and errors are exact and its online mean times its calls is its summed latency; an endpoint is tracked exactly when it had a request |
| `Monitors.TotalsExact` | src/monitor.rs:74-127 | The global counters tally all requests since the last reset |
| `Monitors.ActiveExact` | src/monitor.rs:69-75 | Since the last reset the request counter counts the starts, and if only started requests end the active counter is the starts less the ends |
| `Monitors.ExtremesExact` | src/monitor.rs:79-82 | The recorded minimum and maximum are the least and greatest latency since the last reset |
| `Monitors.EndpointsAddUp` | src/monitor.rs:74-127 | Over any run the stored calls, the stored errors and the stored mean times calls of the tracked endpoints sum to the stored processed, errors and latency totals |
| `Monitors.Monitor.RecordRequestStart` | src/monitor.rs:69-72 | One more total and one more active request |
| `Monitors.Monitor.RecordRequestEnd` | src/monitor.rs:74-127 | Folds one ended request into the global counters and its endpoint's statistics |
| `Monitors.Monitor.GetAvgLatency` | src/monitor.rs:173-180 | Times the processed count it is the summed latency; zero when nothing was processed |
| `Monitors.Monitor.ResetAll` | src/monitor.rs:190-200 | Back to the initial state |

## Left out

- HTTP handlers, streaming, start-up, configuration, exporters, logging and the web interface: input and output only.
- Inference sessions, compression and image codecs: foreign libraries.
- Collision quality of FNV-1a: the loop is kept, nothing is claimed about collisions.
- 64-bit overflow of tickets, counters, products and epoch nanoseconds: these are unbounded numbers here; the cache age test, the active-request counter and the scaler's subtraction do wrap.
- Floating-point rounding: hit rates and box coordinates are real numbers, so NaN does not occur.
- Worker removal interleaved with acquires, and releases after an earlier removal of another position: ids are never renumbered in the worker objects, so the partition claims are for runs without removal.
- Interleavings of the queue-depth and oldest-time stores of the batch processor, and of racing cache inserts: claimed for calls run one after another.
- `current_queue_depth` under interleaving: the protocol stores it but claims nothing about it.
- The number of requests a caller adds after `get_batch`'s lock is released and before its stores: sequential runs only.
- Request payloads and response channels: a request is its id, model, priority and timestamp.
- Surrogate pairs in JSON escapes: the printer never writes them and the parser refuses them.
- Duplicate object keys: serde_json's map cannot hold them, so printed values have none.
- The model pool's semaphore: its permit is returned before `acquire` does, so it limits nothing.
- Health checks, other statistics getters, worker timeouts and the inflight batcher's adaptive timeout table: tables with nothing across operations to prove.
- `clear` and the statistics of the tensor pool: the first only empties the stacks.
- AutoScalers.LowLoadDrains: for a fixed number of busy workers and nobody paused, since the floor it reaches moves with them; the bounds under live traffic are `AutoScalers.CountWithinLimits`.
- TtlCaches.RunInBounds: assumes that a needed eviction names a stored key, which `TtlCaches.Cache.Set` and `TtlCaches.Cache.SetBytes` establish.
- WorkerProtocol.RunPartition: covers no removal of workers, for the reason above.
