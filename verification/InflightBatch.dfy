/** src/inflight_batch.rs: the processor, its guard, and the atomic sections that its
    methods are made of. The concurrent protocol is built from the same sections. */
module InflightBatch {
  import opened Wrappers
  import opened PriorityOrder
  import opened PriorityQueues

  datatype Config = Config(maxBatchSize: nat, maxInflight: nat, timeoutMs: nat)

  /** Everything the processor shares between its callers. */
  datatype Shared = Shared(queue: Queue, permits: nat, inflight: nat, depth: nat, peak: nat,
                           batches: nat, requests: nat, latencyMs: nat)

  const NANOS_PER_MILLI: nat := 1_000_000

  function Initial(cfg: Config): Shared {
    Shared(EMPTY, cfg.maxInflight, 0, 0, 0, 0, 0, 0)
  }

  function Max(a: nat, b: nat): nat { if a >= b then a else b }

  // The atomic sections, in the order the code runs them.

  function PushSection(s: Shared, request: Request): Shared { s.(queue := Pushed(s.queue, request)) }

  function DepthSection(s: Shared, size: nat): Shared { s.(depth := size) }

  function PeakSection(s: Shared, size: nat): Shared { s.(peak := Max(s.peak, size)) }

  /** Phase 1: what the read-locked peek decides. */
  predicate ShouldForm(cfg: Config, q: Queue, now: nat) {
    q.pending != [] &&
    (|q.pending| >= cfg.maxBatchSize ||
     (if q.oldest.Some? then Since(now, q.oldest.value) else 0) >= cfg.timeoutMs * NANOS_PER_MILLI)
  }

  /** What the peek stands for: the batch is full, or a scan finds a request that has waited
      long enough. */
  ghost predicate ScanForm(cfg: Config, pending: seq<Ordered>, now: nat) {
    pending != [] &&
    (|pending| >= cfg.maxBatchSize ||
     exists x :: x in pending && (cfg.timeoutMs == 0 || now >= x.request.timestamp + cfg.timeoutMs * 1_000_000))
  }

  /** On any sound queue, as every queue of the class and of the protocol is, the O(1) peek
      is the scan. */
  lemma PeekIsScan(cfg: Config, q: Queue, now: nat)
    requires Sound(q)
    ensures ShouldForm(cfg, q, now) <==> ScanForm(cfg, q.pending, now)
  {
    if q.pending != [] {
      var x :| x in q.pending && x.request.timestamp == q.oldest.value;
    }
  }

  function TakePermit(s: Shared): Shared
    requires s.permits > 0
  {
    s.(permits := s.permits - 1)
  }

  function ReturnPermit(s: Shared): Shared { s.(permits := s.permits + 1) }

  /** Phase 2: the batch that the write-locked drain takes. */
  function TakenBatch(cfg: Config, s: Shared): seq<Ordered> {
    Front(s.queue, Min(|s.queue.pending|, cfg.maxBatchSize))
  }

  function DrainSection(cfg: Config, s: Shared): Shared {
    var q := Drained(s.queue, Min(|s.queue.pending|, cfg.maxBatchSize));
    s.(queue := q, depth := |q.pending|, inflight := s.inflight + 1)
  }

  function ClearSection(s: Shared): Shared { s.(queue := Emptied(s.queue), depth := 0) }

  function CountBatch(s: Shared): Shared { s.(batches := s.batches + 1) }

  function CountRequests(s: Shared, n: nat): Shared { s.(requests := s.requests + n) }

  function CountLatency(s: Shared, ms: nat): Shared { s.(latencyMs := s.latencyMs + ms) }

  function DecInflight(s: Shared): Shared
    requires s.inflight > 0
  {
    s.(inflight := s.inflight - 1)
  }

  /** A drain asked for no more than there is, or for the limit, is the same drain. */
  lemma DrainSizes(q: Queue, max: nat)
    ensures Front(q, Min(|q.pending|, max)) == Front(q, max) && Drained(q, Min(|q.pending|, max)) == Drained(q, max)
    ensures |Drained(q, max).pending| == |q.pending| - (if |q.pending| <= max then |q.pending| else max)
  {
  }

  lemma QueueIsSound(queue: PriorityQueue)
    requires queue.Valid()
    ensures Sound(queue.View())
  {
  }

  // ---------------------------------------------------------------- the classes

  class InflightBatchProcessor {
    const maxBatchSize: nat
    const maxInflightBatches: nat
    const batchTimeoutMs: nat
    const pendingQueue: PriorityQueue
    var permits: nat
    var processedBatches: nat
    var processedRequests: nat
    var totalLatencyMs: nat
    var currentQueueDepth: nat
    var peakQueueDepth: nat
    var inflightBatches: nat
    /** The guards handed out and not yet dropped. */
    ghost var guards: set<InflightBatchGuard>

    ghost function Cfg(): Config { Config(maxBatchSize, maxInflightBatches, batchTimeoutMs) }

    ghost function View(): Shared
      reads this, pendingQueue
    {
      Shared(pendingQueue.View(), permits, inflightBatches, currentQueueDepth, peakQueueDepth,
             processedBatches, processedRequests, totalLatencyMs)
    }

    /** Between calls, permits and the inflight counter both account for the live guards, and
        the stored depth is that of the queue. */
    ghost predicate Valid()
      reads this, pendingQueue
    {
      pendingQueue.Valid() && currentQueueDepth == |pendingQueue.View().pending| <= peakQueueDepth &&
      permits + |guards| == maxInflightBatches && inflightBatches == |guards| &&
      forall g :: g in guards ==> g.processor == this
    }

    constructor (maxBatchSize: nat, maxInflightBatches: nat, batchTimeoutMs: nat)
      ensures Valid() && fresh(pendingQueue) && guards == {}
      ensures Cfg() == Config(maxBatchSize, maxInflightBatches, batchTimeoutMs)
      ensures View() == Initial(Cfg())
    {
      this.maxBatchSize := maxBatchSize;
      this.maxInflightBatches := maxInflightBatches;
      this.batchTimeoutMs := batchTimeoutMs;
      pendingQueue := new PriorityQueue();
      permits := maxInflightBatches;
      processedBatches, processedRequests, totalLatencyMs := 0, 0, 0;
      currentQueueDepth, peakQueueDepth, inflightBatches := 0, 0, 0;
      guards := {};
    }

    method AddRequest(request: Request)
      requires Valid()
      modifies this`currentQueueDepth, this`peakQueueDepth, pendingQueue
      ensures Valid()
      ensures var pushed := PushSection(old(View()), request);
              var size := |pushed.queue.pending|;
              View() == PeakSection(DepthSection(pushed, size), size)
      ensures currentQueueDepth == old(currentQueueDepth) + 1
      ensures peakQueueDepth == if currentQueueDepth > old(peakQueueDepth) then currentQueueDepth else old(peakQueueDepth)
      ensures multiset(pendingQueue.View().pending) == old(multiset(pendingQueue.View().pending)) +
        multiset{Ordered(request.priority, old(pendingQueue.nextTicket), request)}
    {
      hide PriorityQueue.Valid, Pushed;
      PushAddsOne(pendingQueue.View(), request);
      pendingQueue.Push(request);
      var queueSize := pendingQueue.Len();
      currentQueueDepth := queueSize;
      peakQueueDepth := if peakQueueDepth >= queueSize then peakQueueDepth else queueSize;
    }

    method Peek(now: nat) returns (shouldForm: bool)
      requires Valid()
      ensures shouldForm == ShouldForm(Cfg(), View().queue, now) == ScanForm(Cfg(), View().queue.pending, now)
    {
      PeekIsScan(Cfg(), View().queue, now);
      var n := pendingQueue.Len();
      if n == 0 {
        return false;
      }
      var age := pendingQueue.OldestAge(now);
      var oldestAge := if age.Some? then age.value else 0;
      var full := n >= maxBatchSize;
      shouldForm := full || oldestAge >= batchTimeoutMs * NANOS_PER_MILLI;
    }

    method TryAcquirePermit() returns (ok: bool)
      modifies this`permits
      ensures ok == (old(permits) > 0)
      ensures View() == if ok then TakePermit(old(View())) else old(View())
      ensures permits == if ok then old(permits) - 1 else old(permits)
    {
      ok := permits > 0;
      if ok {
        permits := permits - 1;
      }
    }

    method Drain() returns (batch: Option<seq<Request>>)
      requires pendingQueue.Valid()
      modifies this`currentQueueDepth, this`inflightBatches, pendingQueue
      ensures pendingQueue.Valid()
      ensures batch.None? <==> old(View()).queue.pending == []
      ensures batch.None? ==> View() == old(View())
      ensures batch.Some? ==>
        batch.value == Requests(TakenBatch(Cfg(), old(View()))) && View() == DrainSection(Cfg(), old(View()))
    {
      hide PriorityQueue.Valid, Drained, Requests;
      var n := pendingQueue.Len();
      if n == 0 {
        return None;
      }
      var batchSize := if n <= maxBatchSize then n else maxBatchSize;
      var requests := pendingQueue.DrainUpTo(batchSize);
      currentQueueDepth := pendingQueue.Len();
      inflightBatches := inflightBatches + 1;
      batch := Some(requests);
    }

    /** With no other caller in between, a batch is formed exactly when the peek says so
        and a permit is free, and it holds the highest-ranked requests. */
    method TryFormBatch(now: nat) returns (guard: InflightBatchGuard?)
      requires Valid()
      modifies this`permits, this`currentQueueDepth, this`inflightBatches, this`guards, pendingQueue
      ensures Valid()
      ensures guard != null <==> ShouldForm(Cfg(), old(View()).queue, now) && old(permits) > 0
      ensures guard == null ==> View() == old(View()) && guards == old(guards)
      ensures guard != null ==>
        fresh(guard) && guard.processor == this && !guard.completed && guards == old(guards) + {guard} &&
        guard.batch == Requests(TakenBatch(Cfg(), old(View()))) &&
        View() == DrainSection(Cfg(), TakePermit(old(View())))
      ensures guard != null ==>
        permits == old(permits) - 1 && inflightBatches == old(inflightBatches) + 1 &&
        |guard.batch| == (if old(currentQueueDepth) <= maxBatchSize then old(currentQueueDepth) else maxBatchSize) &&
        currentQueueDepth == old(currentQueueDepth) - |guard.batch|
      ensures guard != null ==>
        (forall i, j :: 0 <= i < j < |guard.batch| ==> guard.batch[i].priority >= guard.batch[j].priority) &&
        forall i, y :: 0 <= i < |guard.batch| && y in pendingQueue.View().pending ==>
          guard.batch[i].priority >= y.request.priority
    {
      hide PriorityQueue.Valid, Drained, Requests, Front;
      QueueIsSound(pendingQueue);
      HighestRequestsFirst(View().queue, maxBatchSize);
      DrainSizes(View().queue, maxBatchSize);
      var shouldForm := Peek(now);
      if !shouldForm {
        return null;
      }
      var ok := TryAcquirePermit();
      if !ok {
        return null;
      }
      var batch := Drain();
      guard := new InflightBatchGuard(this, batch.value);
      guards := guards + {guard};
    }

    method ClearQueue() returns (count: nat)
      requires Valid()
      modifies this`currentQueueDepth, pendingQueue
      ensures Valid() && View() == ClearSection(old(View()))
      ensures count == |old(View()).queue.pending| == old(currentQueueDepth)
      ensures pendingQueue.View().pending == [] && currentQueueDepth == 0
    {
      hide PriorityQueue.Valid, Requests;
      count := pendingQueue.Len();
      var dropped := pendingQueue.DrainAll();
      currentQueueDepth := 0;
    }
  }

  class InflightBatchGuard {
    const processor: InflightBatchProcessor
    const batch: seq<Request>
    var completed: bool

    constructor (processor: InflightBatchProcessor, batch: seq<Request>)
      ensures this.processor == processor && this.batch == batch && !completed
    {
      this.processor := processor;
      this.batch := batch;
      completed := false;
    }

    /** Records the statistics, then drops the guard. */
    method Complete(processingTimeMs: nat)
      requires processor.Valid() && this in processor.guards && !completed
      modifies this`completed, processor`processedBatches, processor`processedRequests,
               processor`totalLatencyMs, processor`inflightBatches, processor`permits, processor`guards
      ensures processor.Valid() && processor.guards == old(processor.guards) - {this}
      ensures completed
      ensures processor.View() ==
        ReturnPermit(DecInflight(CountLatency(CountRequests(CountBatch(old(processor.View())), |batch|), processingTimeMs)))
      ensures processor.processedBatches == old(processor.processedBatches) + 1
      ensures processor.processedRequests == old(processor.processedRequests) + |batch|
      ensures processor.totalLatencyMs == old(processor.totalLatencyMs) + processingTimeMs
      ensures processor.inflightBatches == old(processor.inflightBatches) - 1
      ensures processor.permits == old(processor.permits) + 1
    {
      hide PriorityQueue.Valid;
      completed := true;
      processor.processedBatches := processor.processedBatches + 1;
      processor.processedRequests := processor.processedRequests + |batch|;
      processor.totalLatencyMs := processor.totalLatencyMs + processingTimeMs;
      assert processor.inflightBatches > 0;
      processor.inflightBatches := processor.inflightBatches - 1;
      Drop();
    }

    /** Runs once per guard. Only a guard that never completed still lowers the counter;
        every guard gives its permit back. */
    method Drop()
      requires processor.pendingQueue.Valid() && this in processor.guards
      requires processor.currentQueueDepth == |processor.pendingQueue.View().pending| <= processor.peakQueueDepth
      requires forall g :: g in processor.guards ==> g.processor == processor
      requires processor.permits + |processor.guards| == processor.maxInflightBatches
      requires processor.inflightBatches == |processor.guards| - (if completed then 1 else 0)
      modifies processor`inflightBatches, processor`permits, processor`guards
      ensures processor.Valid() && processor.guards == old(processor.guards) - {this}
      ensures processor.View() ==
        ReturnPermit(if completed then old(processor.View()) else DecInflight(old(processor.View())))
      ensures processor.permits == old(processor.permits) + 1
      ensures processor.inflightBatches == old(processor.inflightBatches) - (if completed then 0 else 1)
    {
      hide PriorityQueue.Valid;
      if !completed {
        processor.inflightBatches := processor.inflightBatches - 1;
      }
      processor.permits := processor.permits + 1;
      processor.guards := processor.guards - {this};
    }
  }
}
