/** src/worker_pool.rs as a state of positions: each worker's state, the queue of idle
    positions, and the active counter. */
module WorkerPools {
  import opened Wrappers

  datatype WorkerState = Idle | Processing | Paused | Stopping | Stopped

  /** `capacity` is that of the bounded idle queue; `minLimit` is 0 under zero scaling. */
  datatype Config = Config(maxWorkers: nat, minLimit: nat, scaleUp: nat, scaleDown: nat)

  datatype Pool = Pool(states: seq<WorkerState>, queue: seq<nat>, active: nat)

  const TWO_64: nat := 0x1_0000_0000_0000_0000

  function Capacity(cfg: Config): nat { if cfg.maxWorkers >= 1 then cfg.maxWorkers else 1 }

  /** A push to a full queue is dropped, and the code ignores that it was. */
  function Enqueue(cfg: Config, queue: seq<nat>, id: nat): seq<nat> {
    if |queue| < Capacity(cfg) then queue + [id] else queue
  }

  function Added(cfg: Config, p: Pool): Pool {
    if |p.states| >= cfg.maxWorkers then p
    else p.(states := p.states + [Idle], queue := Enqueue(cfg, p.queue, |p.states|))
  }

  /** The position `acquire_worker` hands out. */
  function AcquiredId(p: Pool): Option<nat> {
    if p.queue != [] && p.queue[0] < |p.states| then Some(p.queue[0]) else None
  }

  function Acquired(p: Pool): Pool {
    if p.queue == [] then p
    else if p.queue[0] >= |p.states| then p.(queue := p.queue[1..])
    else Pool(p.states[p.queue[0] := Processing], p.queue[1..], p.active + 1)
  }

  /** A worker that was removed meanwhile has no position; it is requeued under its id all
      the same. The counter is unsigned: below zero it wraps. */
  function Released(cfg: Config, p: Pool, position: Option<nat>, id: nat): Pool {
    Pool(if position.Some? && position.value < |p.states| then p.states[position.value := Idle] else p.states,
         Enqueue(cfg, p.queue, id),
         if p.active > 0 then p.active - 1 else TWO_64 - 1)
  }

  function Switched(states: seq<WorkerState>, from: WorkerState, to: WorkerState): seq<WorkerState> {
    seq(|states|, i requires 0 <= i < |states| => if states[i] == from then to else states[i])
  }

  // ---------------------------------------------------------------- removal

  function Cut<T>(s: seq<T>, i: nat): seq<T>
    requires i < |s|
  {
    s[..i] + s[i + 1..]
  }

  /** Positions after position `i` is taken out of the vector: `i` goes, later ones shift. */
  function Relabel(queue: seq<nat>, i: nat): seq<nat> {
    if queue == [] then []
    else (if queue[0] == i then [] else [if queue[0] > i then queue[0] - 1 else queue[0]]) + Relabel(queue[1..], i)
  }

  function LastIdle(states: seq<WorkerState>): (r: Option<nat>)
    ensures r.None? ==> forall j :: 0 <= j < |states| ==> states[j] != Idle
    ensures r.Some? ==> r.value < |states| && states[r.value] == Idle
    ensures r.Some? ==> forall j :: r.value < j < |states| ==> states[j] != Idle
  {
    if states == [] then None
    else if states[|states| - 1] == Idle then Some(|states| - 1)
    else LastIdle(states[..|states| - 1])
  }

  /** The position removed: the popped candidate if it is idle, else the last idle one. */
  function RemovedId(cfg: Config, p: Pool): Option<nat> {
    if |p.states| <= cfg.minLimit then None
    else if p.queue != [] && p.queue[0] < |p.states| && p.states[p.queue[0]] == Idle then Some(p.queue[0])
    else LastIdle(p.states)
  }

  /** Every branch of `remove_idle_worker`. The candidate is popped before it is examined,
      and is not put back. */
  function Removed(cfg: Config, p: Pool): Pool {
    if |p.states| <= cfg.minLimit then p
    else
      var queue := if p.queue == [] then [] else p.queue[1..];
      match RemovedId(cfg, p)
      case None => p.(queue := queue)
      case Some(i) => if i < |p.states| then p.(states := Cut(p.states, i), queue := Relabel(queue, i)) else p
  }

  ghost predicate InRange(queue: seq<nat>, n: nat) { forall i :: 0 <= i < |queue| ==> queue[i] < n }

  ghost predicate NoRepeats(queue: seq<nat>) { forall i, j :: 0 <= i < j < |queue| ==> queue[i] != queue[j] }

  /** The workers a queue names, in order. */
  function Names<T>(queue: seq<nat>, workers: seq<T>): (r: seq<T>)
    requires InRange(queue, |workers|)
    ensures |r| == |queue| && forall i :: 0 <= i < |queue| ==> r[i] == workers[queue[i]]
  {
    if queue == [] then [] else [workers[queue[0]]] + Names(queue[1..], workers)
  }

  function WithoutId(queue: seq<nat>, i: nat): (r: seq<nat>)
    ensures forall x :: x in r <==> x in queue && x != i
    ensures forall n: nat :: InRange(queue, n) ==> InRange(r, n)
  {
    if queue == [] then [] else
      assert forall n: nat :: InRange(queue, n) ==> InRange(queue[1..], n);
      (if queue[0] == i then [] else [queue[0]]) + WithoutId(queue[1..], i)
  }

  /** Read through the shortened vector, the relabelled queue names the same workers in the
      same order, less the removed one. */
  lemma {:induction false} RelabelKeepsNames<T>(queue: seq<nat>, workers: seq<T>, i: nat)
    requires i < |workers| && InRange(queue, |workers|)
    ensures InRange(Relabel(queue, i), |workers| - 1) && InRange(WithoutId(queue, i), |workers|)
    ensures Names(Relabel(queue, i), Cut(workers, i)) == Names(WithoutId(queue, i), workers)
  {
    if queue != [] {
      RelabelKeepsNames(queue[1..], workers, i);
      var r, w := Relabel(queue[1..], i), WithoutId(queue[1..], i);
      if queue[0] == i {
        assert Relabel(queue, i) == r && WithoutId(queue, i) == w;
      } else {
        var k := if queue[0] > i then queue[0] - 1 else queue[0];
        assert Cut(workers, i)[k] == workers[queue[0]];
        assert ([k] + r)[1..] == r && ([queue[0]] + w)[1..] == w;
      }
    }
  }

  /** The candidate is stale: it was popped, is not idle any more, and so is dropped. */
  predicate StaleFront(cfg: Config, p: Pool)
  {
    |p.states| > cfg.minLimit && p.queue != [] && (p.queue[0] >= |p.states| || p.states[p.queue[0]] != Idle)
  }

  lemma {:induction false} RelabelLength(queue: seq<nat>, i: nat)
    requires NoRepeats(queue)
    ensures |WithoutId(queue, i)| == |queue| - (if i in queue then 1 else 0)
  {
    if queue != [] {
      assert NoRepeats(queue[1..]);
      RelabelLength(queue[1..], i);
      assert queue == [queue[0]] + queue[1..];
      assert forall j :: 0 <= j < |queue[1..]| ==> queue[1..][j] == queue[j + 1];
    }
  }

  /** What removing position `i` (or nothing) should leave of the queue, worker by worker. */
  ghost function ExpectedNames<T>(cfg: Config, p: Pool, workers: seq<T>): seq<T>
    requires |workers| == |p.states| && InRange(p.queue, |workers|)
  {
    match RemovedId(cfg, p)
    case None => Names(p.queue, workers)
    case Some(i) => Names(WithoutId(p.queue, i), workers)
  }

  ghost function LeftWorkers<T>(cfg: Config, p: Pool, workers: seq<T>): seq<T>
    requires |workers| == |p.states|
  {
    match RemovedId(cfg, p)
    case None => workers
    case Some(i) => Cut(workers, i)
  }

  /** Removal is a pure relabelling exactly when its candidate is not stale; a stale
      candidate's worker is named by the queue no more. */
  lemma RemovalIsRelabelling<T>(cfg: Config, p: Pool, workers: seq<T>)
    requires |workers| == |p.states| && InRange(p.queue, |workers|) && NoRepeats(p.queue)
    ensures InRange(Removed(cfg, p).queue, |LeftWorkers(cfg, p, workers)|)
    ensures Names(Removed(cfg, p).queue, LeftWorkers(cfg, p, workers)) == ExpectedNames(cfg, p, workers)
       <==> !StaleFront(cfg, p)
  {
    hide Names, Relabel, WithoutId, LastIdle;
    if |p.states| > cfg.minLimit {
      var queue := if p.queue == [] then [] else p.queue[1..];
      assert InRange(queue, |workers|) && NoRepeats(queue);
      match RemovedId(cfg, p) {
        case None => assert p.queue != [] ==> StaleFront(cfg, p);
        case Some(i) =>
          RelabelKeepsNames(queue, workers, i);
          FrontDecides(p.queue, queue, i);
          assert StaleFront(cfg, p) <==> p.queue != [] && p.queue[0] != i;
      }
    }
  }

  lemma FrontDecides(queue: seq<nat>, tail: seq<nat>, i: nat)
    requires NoRepeats(queue) && tail == if queue == [] then [] else queue[1..]
    ensures queue == [] || queue[0] == i ==> WithoutId(queue, i) == WithoutId(tail, i)
    ensures queue != [] && queue[0] != i ==> |WithoutId(queue, i)| == |WithoutId(tail, i)| + 1
  {
  }

  /** With everyone paused a removal fails and yet the worker at the front is queued no more,
      so after a resume nobody can acquire it. */
  lemma PausedCandidateIsLost()
    ensures var p := Pool([Paused, Paused], [0, 1], 0);
            var q := Removed(Config(4, 0, 10, 2), p);
            RemovedId(Config(4, 0, 10, 2), p).None? && q.states == p.states && q.queue == [1]
  {
    var p := Pool([Paused, Paused], [0, 1], 0);
    assert LastIdle(p.states).None?;
  }

  // ---------------------------------------------------------------- settled pools

  function CountProcessing(states: seq<WorkerState>): nat {
    if states == [] then 0
    else CountProcessing(states[..|states| - 1]) + (if states[|states| - 1] == Processing then 1 else 0)
  }

  /** Nothing paused and no call in progress: the queue lists exactly the idle positions
      once each, and the counter counts the others. */
  ghost predicate Settled(p: Pool) {
    NoRepeats(p.queue) && (forall k: nat :: k in p.queue <==> k < |p.states| && p.states[k] == Idle) &&
    (forall k :: 0 <= k < |p.states| ==> p.states[k] == Idle || p.states[k] == Processing) &&
    p.active == CountProcessing(p.states)
  }

  lemma {:induction false} CountBound(states: seq<WorkerState>)
    ensures CountProcessing(states) <= |states|
    ensures CountProcessing(states) < |states| <==> exists k :: 0 <= k < |states| && states[k] != Processing
  {
    if states != [] {
      var t := states[..|states| - 1];
      CountBound(t);
      assert forall k :: 0 <= k < |t| ==> t[k] == states[k];
      if states[|states| - 1] == Processing && CountProcessing(t) < |t| {
        var k :| 0 <= k < |t| && t[k] != Processing;
        assert states[k] != Processing;
      }
    }
  }

  lemma {:induction false} CountCut(states: seq<WorkerState>, i: nat)
    requires i < |states| && states[i] != Processing
    ensures CountProcessing(Cut(states, i)) == CountProcessing(states)
  {
    var last := |states| - 1;
    if i == last {
      assert Cut(states, i) == states[..last];
    } else {
      CountCut(states[..last], i);
      assert Cut(states, i)[..last - 1] == Cut(states[..last], i);
    }
  }

  lemma {:induction false} CountUpdate(states: seq<WorkerState>, i: nat, w: WorkerState)
    requires i < |states|
    ensures CountProcessing(states[i := w]) + (if states[i] == Processing then 1 else 0) ==
            CountProcessing(states) + (if w == Processing then 1 else 0)
  {
    var last := |states| - 1;
    if i == last {
      assert states[i := w][..last] == states[..last];
    } else {
      CountUpdate(states[..last], i, w);
      assert states[i := w][..last] == states[..last][i := w];
    }
  }

  /** Acquiring from a settled pool hands out the longest-idle worker and leaves a settled
      pool; with nobody idle it changes nothing. */
  lemma AcquireKeepsSettled(p: Pool)
    requires Settled(p)
    ensures Settled(Acquired(p))
    ensures p.queue == [] ==> Acquired(p) == p
    ensures p.queue != [] ==> AcquiredId(p) == Some(p.queue[0]) && Acquired(p).active == p.active + 1
  {
    hide CountProcessing;
    if p.queue != [] {
      var id, rest, a := p.queue[0], p.queue[1..], Acquired(p);
      assert id in p.queue && p.queue == [id] + rest;
      TailNoRepeats(p.queue);
      CountUpdate(p.states, id, Processing);
      assert a.states == p.states[id := Processing];
      forall k: nat ensures k in rest <==> k < |a.states| && a.states[k] == Idle {
        assert k in p.queue <==> k == id || k in rest;
        assert k < |a.states| && k != id ==> a.states[k] == p.states[k];
      }
      forall k | 0 <= k < |a.states| ensures a.states[k] == Idle || a.states[k] == Processing {
        assert k != id ==> a.states[k] == p.states[k];
      }
    }
  }

  lemma TailNoRepeats(queue: seq<nat>)
    requires NoRepeats(queue) && queue != []
    ensures NoRepeats(queue[1..]) && queue[0] !in queue[1..]
  {
  }

  /** Releasing a busy worker sends its id to the end of the queue and uncounts it; the pool
      stays settled exactly when the id still names the worker's position. */
  lemma ReleaseKeepsSettled(cfg: Config, p: Pool, position: nat, id: nat)
    requires Settled(p) && position < |p.states| <= cfg.maxWorkers && p.states[position] == Processing
    ensures Settled(Released(cfg, p, Some(position), id)) <==> id == position
    ensures Released(cfg, p, Some(position), id).queue == p.queue + [id]
    ensures p.active == Released(cfg, p, Some(position), id).active + 1
  {
    hide CountProcessing;
    CountUpdate(p.states, position, Idle);
    QueueFits(p);
    RoomWhenBusy(p, position);
    var r := Released(cfg, p, Some(position), id);
    assert position !in p.queue && r.states[position] == Idle;
    if id == position {
      forall k: nat ensures k in r.queue <==> k < |r.states| && r.states[k] == Idle {
        assert k in r.queue <==> k == id || k in p.queue;
      }
    } else {
      assert position !in r.queue;
    }
  }

  lemma RoomWhenBusy(p: Pool, id: nat)
    requires Settled(p) && id < |p.states| && p.states[id] == Processing
    ensures |p.queue| < |p.states|
  {
    var q := p.queue + [id];
    assert forall i :: 0 <= i < |p.queue| ==> p.queue[i] in p.queue;
    DistinctBelow(q, |p.states|);
  }

  /** Pausing and resuming restores every state exactly when nobody was paused before. */
  lemma ResumeUndoesPause(states: seq<WorkerState>)
    ensures Switched(Switched(states, Idle, Paused), Paused, Idle) == states <==>
            forall i :: 0 <= i < |states| ==> states[i] != Paused
  {
    var r := Switched(Switched(states, Idle, Paused), Paused, Idle);
    if r == states {
      forall i | 0 <= i < |states| ensures states[i] != Paused { assert r[i] == states[i]; }
    }
  }

  lemma {:induction false} RelabelMembers(queue: seq<nat>, i: nat)
    requires NoRepeats(queue)
    ensures NoRepeats(Relabel(queue, i))
    ensures forall k: nat :: k in Relabel(queue, i) <==> (if k >= i then k + 1 else k) in queue
  {
    if queue != [] {
      var t := queue[1..];
      assert queue == [queue[0]] + t;
      assert forall j :: 0 <= j < |t| ==> t[j] == queue[j + 1];
      RelabelMembers(t, i);
      var r := Relabel(t, i);
      if queue[0] != i {
        var h := if queue[0] > i then queue[0] - 1 else queue[0];
        assert h !in r;
        assert Relabel(queue, i) == [h] + r;
      }
    }
  }

  /** On a settled pool removal takes the longest-idle worker, loses nobody, and leaves a
      settled pool; it fails exactly at the lower limit or with nobody idle. */
  lemma RemovalKeepsSettled(cfg: Config, p: Pool)
    requires Settled(p)
    ensures Settled(Removed(cfg, p)) && Removed(cfg, p).active == p.active
    ensures RemovedId(cfg, p).Some? <==> |p.states| > cfg.minLimit && p.queue != []
    ensures RemovedId(cfg, p).Some? ==>
      RemovedId(cfg, p).value == p.queue[0] && |Removed(cfg, p).states| == |p.states| - 1
    ensures RemovedId(cfg, p).None? ==> Removed(cfg, p) == p
  {
    if |p.states| > cfg.minLimit {
      if p.queue == [] {
        assert forall k :: 0 <= k < |p.states| ==> k !in p.queue;
      } else {
        var i, q := p.queue[0], p.queue[1..];
        assert i in p.queue;
        assert p.queue == [i] + q && NoRepeats(q) && i !in q;
        RelabelMembers(q, i);
        CountCut(p.states, i);
        CutSettled(p, i, q);
      }
    }
  }

  lemma CutSettled(p: Pool, i: nat, q: seq<nat>)
    requires Settled(p) && i < |p.states| && p.queue == [i] + q && i !in q
    requires forall k: nat :: k in Relabel(q, i) <==> (if k >= i then k + 1 else k) in q
    ensures forall k: nat :: k in Relabel(q, i) <==> k < |Cut(p.states, i)| && Cut(p.states, i)[k] == Idle
    ensures forall k :: 0 <= k < |Cut(p.states, i)| ==> Cut(p.states, i)[k] == Idle || Cut(p.states, i)[k] == Processing
  {
    hide Relabel, NoRepeats, CountProcessing;
    var s := Cut(p.states, i);
    forall k: nat ensures k in Relabel(q, i) <==> k < |s| && s[k] == Idle {
      var k' := if k >= i then k + 1 else k;
      assert k' in q <==> k' in p.queue;
      if k < |s| { assert s[k] == p.states[k']; }
    }
    forall k | 0 <= k < |s| ensures s[k] == Idle || s[k] == Processing {
      assert s[k] == p.states[if k >= i then k + 1 else k];
    }
  }

  lemma AddKeepsSettled(cfg: Config, p: Pool)
    requires Settled(p)
    ensures Settled(Added(cfg, p)) && Added(cfg, p).active == p.active
    ensures |Added(cfg, p).states| == if |p.states| >= cfg.maxWorkers then |p.states| else |p.states| + 1
  {
    if |p.states| < cfg.maxWorkers {
      QueueFits(p);
      var s := p.states + [Idle];
      assert s[..|p.states|] == p.states;
    }
  }

  lemma {:induction false} DistinctBelow(queue: seq<nat>, n: nat)
    requires NoRepeats(queue) && InRange(queue, n)
    ensures |queue| <= n
    decreases n
  {
    if n == 0 {
    } else {
      RelabelLength(queue, n - 1);
      WithoutNoRepeats(queue, n - 1);
      var w := WithoutId(queue, n - 1);
      forall i | 0 <= i < |w| ensures w[i] < n - 1 { assert w[i] in w && w[i] in queue; }
      DistinctBelow(w, n - 1);
    }
  }

  lemma {:induction false} WithoutNoRepeats(queue: seq<nat>, i: nat)
    requires NoRepeats(queue)
    ensures NoRepeats(WithoutId(queue, i))
  {
    if queue != [] {
      WithoutNoRepeats(queue[1..], i);
      assert forall j :: 0 <= j < |queue[1..]| ==> queue[1..][j] == queue[j + 1];
      assert queue[0] !in queue[1..];
    }
  }

  lemma QueueFits(p: Pool)
    requires Settled(p)
    ensures InRange(p.queue, |p.states|) && |p.queue| <= |p.states|
  {
    forall i | 0 <= i < |p.queue| ensures p.queue[i] < |p.states| { assert p.queue[i] in p.queue; }
    DistinctBelow(p.queue, |p.states|);
  }

  // ---------------------------------------------------------------- ids and positions

  /** Workers joining the vector, and leaving it from a position. */
  datatype Change = Join | Leave(position: nat)

  /** The ids of the workers present: each took the next position as its id when it joined,
      and keeps it. */
  function Ids(changes: seq<Change>): seq<nat> {
    if changes == [] then []
    else
      var ids, c := Ids(changes[..|changes| - 1]), changes[|changes| - 1];
      match c
      case Join => ids + [|ids|]
      case Leave(i) => if i < |ids| then Cut(ids, i) else ids
  }

  /** For each worker present, how many left from a lower position since it joined. */
  function LeftBelow(changes: seq<Change>): (counts: seq<nat>)
    ensures |counts| == |Ids(changes)|
  {
    if changes == [] then []
    else
      var n, c := LeftBelow(changes[..|changes| - 1]), changes[|changes| - 1];
      match c
      case Join => n + [0]
      case Leave(i) => if i < |n| then n[..i] + Raised(n[i + 1..]) else n
  }

  function Raised(counts: seq<nat>): (r: seq<nat>)
    ensures |r| == |counts| && forall i :: 0 <= i < |r| ==> r[i] == counts[i] + 1
  {
    seq(|counts|, i requires 0 <= i < |counts| => counts[i] + 1)
  }

  /** After any run a worker's id is its position plus the departures below it, so it names
      the position exactly when nobody left from a lower one since the worker joined. */
  lemma {:induction false} IdNamesPosition(changes: seq<Change>, k: nat)
    requires k < |Ids(changes)|
    ensures Ids(changes)[k] == k + LeftBelow(changes)[k]
    ensures Ids(changes)[k] == k <==> LeftBelow(changes)[k] == 0
  {
    hide Raised;
    var init, c := changes[..|changes| - 1], changes[|changes| - 1];
    var n := |Ids(init)|;
    match c {
      case Join => if k < n { IdNamesPosition(init, k); }
      case Leave(i) => IdNamesPosition(init, if i < n && k >= i then k + 1 else k);
    }
  }
}
