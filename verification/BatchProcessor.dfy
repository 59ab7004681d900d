/** src/batch.rs: a bounded batch with two published scalars, read without the lock, that
    stand in for a scan of the queue. Claims are about sequential runs. */
module BatchProcessors {
  import opened Wrappers
  import opened PriorityOrder
  import opened PriorityQueues

  /** `epoch` is the instant the published nanoseconds count from. */
  datatype Config = Config(maxBatchSize: nat, minBatchSize: nat, timeoutMs: nat, adaptive: bool, epoch: nat)

  datatype State = State(queue: Queue, depth: nat, oldestNanos: nat, processed: nat)

  const NANOS_PER_MILLI: nat := 1_000_000

  const INITIAL := State(EMPTY, 0, 0, 0)

  function Latest(a: nat, b: nat): nat { if a >= b then a else b }

  /** 0 is reserved for an empty batch. */
  function Published(cfg: Config, oldest: nat): nat { Latest(Since(oldest, cfg.epoch), 1) }

  function Add(cfg: Config, s: State, request: Request): State {
    if |s.queue.pending| >= cfg.maxBatchSize then s
    else
      var q := Pushed(s.queue, request);
      var oldest := if q.oldest.Some? then q.oldest.value else request.timestamp;
      State(q, |q.pending|, Published(cfg, oldest), s.processed)
  }

  function Taken(s: State): State { State(Emptied(s.queue), 0, 0, s.processed + 1) }

  function Cleared(s: State): State { State(Emptied(s.queue), 0, 0, s.processed) }

  function AdaptiveTimeout(cfg: Config, depth: nat): nat {
    if !cfg.adaptive then cfg.timeoutMs
    else if depth <= 2 then cfg.timeoutMs
    else if depth <= 5 then cfg.timeoutMs / 2
    else if depth <= 10 then cfg.timeoutMs / 4
    else cfg.timeoutMs / 8
  }

  /** The documented table: a deeper queue waits the whole timeout, a half, a quarter or an
      eighth, in whole milliseconds. */
  lemma TimeoutTable(cfg: Config, depth: nat)
    ensures var t, full := AdaptiveTimeout(cfg, depth), cfg.timeoutMs;
            (!cfg.adaptive || depth <= 2 ==> t == full) &&
            (cfg.adaptive && 3 <= depth <= 5 ==> 2 * t <= full <= 2 * t + 1) &&
            (cfg.adaptive && 6 <= depth <= 10 ==> 4 * t <= full <= 4 * t + 3) &&
            (cfg.adaptive && depth >= 11 ==> 8 * t <= full <= 8 * t + 7)
  {
  }

  /** The lock-free decision. */
  predicate ShouldProcess(cfg: Config, s: State, now: nat) {
    if s.depth == 0 then false
    else if s.depth >= cfg.maxBatchSize then true
    else if s.depth < cfg.minBatchSize then false
    else if s.oldestNanos > 0 then
      Since(now, cfg.epoch + s.oldestNanos) >= AdaptiveTimeout(cfg, s.depth) * NANOS_PER_MILLI
    else false
  }

  /** What the decision stands for: a scan of everything queued. */
  ghost predicate ScanReady(cfg: Config, pending: seq<Ordered>, now: nat) {
    |pending| > 0 &&
    (|pending| >= cfg.maxBatchSize ||
     (|pending| >= cfg.minBatchSize &&
      exists x :: x in pending &&
        (AdaptiveTimeout(cfg, |pending|) == 0 ||
         now >= x.request.timestamp + AdaptiveTimeout(cfg, |pending|) * 1_000_000)))
  }

  /** The published scalars describe the queue. */
  ghost predicate Agrees(cfg: Config, s: State) {
    Sound(s.queue) && s.depth == |s.queue.pending| &&
    s.oldestNanos == if s.queue.pending == [] then 0 else Published(cfg, s.queue.oldest.value)
  }

  datatype Op = AddOp(request: Request) | GetBatch | ClearBatch

  function Do(cfg: Config, s: State, op: Op): State {
    match op
    case AddOp(request) => Add(cfg, s, request)
    case GetBatch => Taken(s)
    case ClearBatch => Cleared(s)
  }

  function Run(cfg: Config, s: State, ops: seq<Op>): State {
    if ops == [] then s else Do(cfg, Run(cfg, s, ops[..|ops| - 1]), ops[|ops| - 1])
  }

  lemma AddAgrees(cfg: Config, s: State, request: Request)
    requires Agrees(cfg, s)
    ensures Agrees(cfg, Add(cfg, s, request))
  {
    PushKeepsSound(s.queue, request);
    assert Entry(s.queue, request) in Pushed(s.queue, request).pending by {
      InsertBag(Entry(s.queue, request), s.queue.pending);
    }
  }

  lemma DepthIsLength(cfg: Config, s: State)
    requires Agrees(cfg, s)
    ensures s.depth == |s.queue.pending|
  {
  }

  /** After any sequence of calls the published scalars are those of the queue, and the
      batch never holds more than its maximum. */
  lemma {:induction false} RunAgrees(cfg: Config, ops: seq<Op>)
    ensures Agrees(cfg, Run(cfg, INITIAL, ops))
    ensures Run(cfg, INITIAL, ops).depth <= cfg.maxBatchSize
  {
    hide Published, Insert, Sound;
    if ops == [] {
      RunInvariant([]);
    } else {
      var prev := Run(cfg, INITIAL, ops[..|ops| - 1]);
      RunAgrees(cfg, ops[..|ops| - 1]);
      match ops[|ops| - 1] {
        case AddOp(request) =>
          AddAgrees(cfg, prev, request);
          PushAddsOne(prev.queue, request);
        case GetBatch => TailSound(prev.queue, 0);
        case ClearBatch => TailSound(prev.queue, 0);
      }
    }
  }

  lemma AllByPriority(q: Queue)
    requires Sound(q)
    ensures var r := Requests(q.pending);
            |r| == |q.pending| && forall i, j :: 0 <= i < j < |r| ==> r[i].priority >= r[j].priority
  {
    HighestRequestsFirst(q, |q.pending|);
    assert Front(q, |q.pending|) == q.pending;
  }

  /** The one moment at which the scalars lag the queue: the oldest request was enqueued no
      later than the epoch, it has waited long enough, and the epoch has not. */
  predicate EpochLag(cfg: Config, s: State, now: nat)
    requires s.queue.oldest.Some?
  {
    var due := AdaptiveTimeout(cfg, s.depth) * NANOS_PER_MILLI;
    cfg.minBatchSize <= s.depth < cfg.maxBatchSize && s.queue.oldest.value <= cfg.epoch &&
    Since(now, s.queue.oldest.value) >= due > Since(now, cfg.epoch + 1)
  }

  lemma OldestDecides(cfg: Config, s: State, now: nat, due: nat)
    requires Agrees(cfg, s) && s.queue.pending != []
    ensures s.queue.oldest.Some?
    ensures (exists x :: x in s.queue.pending && (due == 0 || now >= x.request.timestamp + due))
       <==> Since(now, s.queue.oldest.value) >= due
  {
  }

  /** The lock-free decision is exactly the full scan, except in the epoch lag, where it
      is late and never early. */
  lemma ShouldProcessIsScan(cfg: Config, s: State, now: nat)
    requires Agrees(cfg, s) && s.queue.pending != []
    ensures s.queue.oldest.Some?
    ensures ShouldProcess(cfg, s, now) <==> ScanReady(cfg, s.queue.pending, now) && !EpochLag(cfg, s, now)
  {
  }

  /** The decision is the scan at every moment exactly when the oldest request is stamped
      after the epoch, or the depth alone or a zero timeout decides: all known beforehand. */
  lemma DecidesLikeScanIff(cfg: Config, s: State)
    requires Agrees(cfg, s) && s.queue.pending != []
    ensures s.queue.oldest.Some?
    ensures (forall now: nat :: ShouldProcess(cfg, s, now) <==> ScanReady(cfg, s.queue.pending, now)) <==>
      (s.queue.oldest.value > cfg.epoch || s.depth < cfg.minBatchSize || s.depth >= cfg.maxBatchSize ||
       AdaptiveTimeout(cfg, s.depth) == 0)
  {
    OldestDecides(cfg, s, 0, 0);
    var due := AdaptiveTimeout(cfg, s.depth) * NANOS_PER_MILLI;
    var missed := s.queue.oldest.value + due;
    ShouldProcessIsScan(cfg, s, missed);
    OldestDecides(cfg, s, missed, due);
    forall now: nat
      ensures ShouldProcess(cfg, s, now) <==> ScanReady(cfg, s.queue.pending, now) && !EpochLag(cfg, s, now)
    {
      ShouldProcessIsScan(cfg, s, now);
    }
    hide ShouldProcess, ScanReady, Agrees;
    if cfg.minBatchSize <= s.depth < cfg.maxBatchSize && s.queue.oldest.value <= cfg.epoch && due > 0 {
      assert EpochLag(cfg, s, missed);
      MissedIsReady(cfg, s, missed, due);
    } else {
      forall now: nat ensures !EpochLag(cfg, s, now) { }
    }
  }

  lemma MissedIsReady(cfg: Config, s: State, now: nat, due: nat)
    requires Agrees(cfg, s) && s.queue.pending != [] && s.queue.oldest.Some?
    requires due == AdaptiveTimeout(cfg, s.depth) * NANOS_PER_MILLI && EpochLag(cfg, s, now)
    ensures ScanReady(cfg, s.queue.pending, now)
  {
    OldestDecides(cfg, s, now, due);
  }

  /** With every timestamp after the epoch there is no lag. */
  lemma AfterEpochIsScan(cfg: Config, s: State, now: nat)
    requires Agrees(cfg, s)
    requires forall x :: x in s.queue.pending ==> x.request.timestamp > cfg.epoch
    ensures ShouldProcess(cfg, s, now) <==> ScanReady(cfg, s.queue.pending, now)
  {
    if s.queue.pending != [] {
      OldestDecides(cfg, s, now, 0);
      ShouldProcessIsScan(cfg, s, now);
    }
  }

  /** After any sequence of calls, at any time, the lock-free decision is the full scan
      outside the epoch lag, and false on an empty batch. */
  lemma RunDecidesLikeScan(cfg: Config, ops: seq<Op>, now: nat)
    ensures var s := Run(cfg, INITIAL, ops);
            if s.queue.pending == [] then !ShouldProcess(cfg, s, now)
            else s.queue.oldest.Some? &&
                 (ShouldProcess(cfg, s, now) <==> ScanReady(cfg, s.queue.pending, now) && !EpochLag(cfg, s, now))
  {
    RunAgrees(cfg, ops);
    var s := Run(cfg, INITIAL, ops);
    if s.queue.pending != [] { ShouldProcessIsScan(cfg, s, now); }
  }

  /** The first request of a fresh process is stamped before the epoch is first read. Ten
      nanoseconds before is enough for the decision to miss a batch that a scan would take. */
  lemma EpochLagHappens()
    ensures var cfg := Config(32, 1, 100, true, 10);
            var s := Add(cfg, INITIAL, Request("first", "m", 0, 0));
            ScanReady(cfg, s.queue.pending, 100_000_000) && !ShouldProcess(cfg, s, 100_000_000)
  {
    var cfg := Config(32, 1, 100, true, 10);
    var request := Request("first", "m", 0, 0);
    var s := Add(cfg, INITIAL, request);
    assert s.queue.pending == [Ordered(0, 0, request)];
    assert s.queue.pending[0] in s.queue.pending;
  }

  lemma ShorterTimeout(cfg: Config, d: nat, d': nat)
    requires d <= d'
    ensures AdaptiveTimeout(cfg, d') <= AdaptiveTimeout(cfg, d)
  {
  }

  lemma AddKeepsReady(cfg: Config, s: State, now: nat, now': nat, request: Request)
    requires Agrees(cfg, s) && ShouldProcess(cfg, s, now) && now <= now'
    ensures ShouldProcess(cfg, Add(cfg, s, request), now')
  {
    PushAddsOne(s.queue, request);
    ShorterTimeout(cfg, s.depth, s.depth + 1);
  }

  /** Once the batch is ready it stays ready, whatever is added and however late, until it
      is taken or cleared. */
  lemma {:induction false} ReadinessIsStable(cfg: Config, s: State, now: nat, now': nat, requests: seq<Request>)
    requires Agrees(cfg, s) && ShouldProcess(cfg, s, now) && now <= now'
    ensures ShouldProcess(cfg, Run(cfg, s, Adds(requests)), now')
    ensures Agrees(cfg, Run(cfg, s, Adds(requests)))
  {
    hide Agrees, ShouldProcess, Add;
    if requests == [] {
      StillReady(cfg, s, now, now');
    } else {
      var n := |requests| - 1;
      ReadinessIsStable(cfg, s, now, now', requests[..n]);
      assert Adds(requests)[..n] == Adds(requests[..n]);
      var mid := Run(cfg, s, Adds(requests[..n]));
      AddAgrees(cfg, mid, requests[n]);
      AddKeepsReady(cfg, mid, now', now', requests[n]);
    }
  }

  lemma StillReady(cfg: Config, s: State, now: nat, now': nat)
    requires ShouldProcess(cfg, s, now) && now <= now'
    ensures ShouldProcess(cfg, s, now')
  {
  }

  function Adds(requests: seq<Request>): seq<Op> {
    seq(|requests|, i requires 0 <= i < |requests| => AddOp(requests[i]))
  }

  class BatchProcessor {
    const maxBatchSize: nat
    const batchTimeoutMs: nat
    const epoch: nat
    var minBatchSize: nat
    var adaptiveTimeoutEnabled: bool
    const currentBatch: PriorityQueue
    var processedBatches: nat
    var queueDepth: nat
    var oldestEnqueueNanos: nat

    function Cfg(): Config
      reads this
    {
      Config(maxBatchSize, minBatchSize, batchTimeoutMs, adaptiveTimeoutEnabled, epoch)
    }

    ghost function View(): State
      reads this, currentBatch
    {
      State(currentBatch.View(), queueDepth, oldestEnqueueNanos, processedBatches)
    }

    ghost predicate Valid()
      reads this, currentBatch
    {
      currentBatch.Valid() && Agrees(Cfg(), View())
    }

    constructor (maxBatchSize: nat, batchTimeoutMs: nat, epoch: nat)
      ensures Valid() && fresh(currentBatch) && View() == INITIAL
      ensures Cfg() == Config(maxBatchSize, 1, batchTimeoutMs, true, epoch)
    {
      this.maxBatchSize := maxBatchSize;
      this.batchTimeoutMs := batchTimeoutMs;
      this.epoch := epoch;
      minBatchSize, adaptiveTimeoutEnabled := 1, true;
      currentBatch := new PriorityQueue();
      processedBatches, queueDepth, oldestEnqueueNanos := 0, 0, 0;
    }

    method AddRequest(request: Request) returns (full: Result<bool>)
      requires Valid()
      modifies this`queueDepth, this`oldestEnqueueNanos, currentBatch
      ensures Valid() && View() == Add(Cfg(), old(View()), request)
      ensures full.Err? <==> |old(View()).queue.pending| >= maxBatchSize
      ensures full.Ok? ==> full.value == (|View().queue.pending| >= maxBatchSize)
      ensures full.Ok? ==> queueDepth == old(queueDepth) + 1
      ensures full.Ok? ==>
        multiset(View().queue.pending) ==
        multiset(old(View()).queue.pending) + multiset{Ordered(request.priority, old(View()).queue.nextTicket, request)}
      ensures full.Err? ==> View() == old(View())
    {
      PushAddsOne(View().queue, request);
      hide PriorityQueue.Valid, Pushed, Agrees, Published;
      AddAgrees(Cfg(), View(), request);
      DepthIsLength(Cfg(), View());
      var n := currentBatch.Len();
      if n >= maxBatchSize {
        return Err("Batch is full");
      }
      var ts := request.timestamp;
      currentBatch.Push(request);
      var len := currentBatch.Len();
      var oldest := currentBatch.oldestEnqueue;
      var oldestTs := if oldest.Some? then oldest.value else ts;
      queueDepth := len;
      oldestEnqueueNanos := Published(Cfg(), oldestTs);
      return Ok(len >= maxBatchSize);
    }

    method ShouldProcessBatch(now: nat) returns (ready: bool)
      requires Valid()
      ensures ready == ShouldProcess(Cfg(), View(), now)
      ensures (forall x :: x in View().queue.pending ==> x.request.timestamp > epoch) ==>
        ready == ScanReady(Cfg(), View().queue.pending, now)
    {
      if forall x :: x in View().queue.pending ==> x.request.timestamp > epoch { AfterEpochIsScan(Cfg(), View(), now); }
      var len := queueDepth;
      if len == 0 {
        return false;
      }
      if len >= maxBatchSize {
        return true;
      }
      if len < minBatchSize {
        return false;
      }
      var nanos := oldestEnqueueNanos;
      if nanos > 0 {
        var timeout := AdaptiveTimeout(Cfg(), len);
        return Since(now, epoch + nanos) >= timeout * NANOS_PER_MILLI;
      }
      return false;
    }

    /** Everything queued, highest priority first and first come first within a priority. */
    method TakeBatch() returns (requests: seq<Request>)
      requires Valid()
      modifies this`queueDepth, this`oldestEnqueueNanos, this`processedBatches, currentBatch
      ensures Valid() && View() == Taken(old(View()))
      ensures requests == Requests(old(View()).queue.pending)
      ensures |requests| == old(queueDepth) && View().queue.pending == [] && queueDepth == oldestEnqueueNanos == 0
      ensures forall i, j :: 0 <= i < j < |requests| ==> requests[i].priority >= requests[j].priority
      ensures processedBatches == old(processedBatches) + 1
    {
      hide PriorityQueue.Valid, Requests, Sound;
      AllByPriority(currentBatch.View());
      DepthIsLength(Cfg(), View());
      TailSound(currentBatch.View(), 0);
      requests := currentBatch.DrainAll();
      queueDepth := 0;
      oldestEnqueueNanos := 0;
      processedBatches := processedBatches + 1;
    }

    method Clear()
      requires Valid()
      modifies this`queueDepth, this`oldestEnqueueNanos, currentBatch
      ensures Valid() && View() == Cleared(old(View()))
      ensures View().queue.pending == [] && queueDepth == oldestEnqueueNanos == 0
    {
      hide PriorityQueue.Valid, Sound;
      TailSound(currentBatch.View(), 0);
      currentBatch.Clear();
      queueDepth := 0;
      oldestEnqueueNanos := 0;
    }
  }
}
