/** The structs of src/worker_pool.rs, with workers as objects, proved to move the pool's
    positions as the model says. */
module WorkerPoolStruct {
  import opened Wrappers
  import opened WorkerPools
  import opened AutoScalers

  class Worker {
    const id: nat
    var state: WorkerState
    var tasksProcessed: nat
    var totalProcessingTimeMs: nat

    constructor (id: nat)
      ensures this.id == id && state == Idle && tasksProcessed == 0
    {
      this.id := id;
      state, tasksProcessed, totalProcessingTimeMs := Idle, 0, 0;
    }
  }

  /** The position of a worker in the vector, if it is there. */
  ghost function Find(workers: seq<Worker>, worker: Worker): (k: Option<nat>)
    ensures k.Some? ==> k.value < |workers| && workers[k.value] == worker
    ensures k.None? ==> worker !in workers
  {
    if workers == [] then None
    else if workers[|workers| - 1] == worker then Some(|workers| - 1)
    else Find(workers[..|workers| - 1], worker)
  }

  class WorkerPool {
    const cfg: Config
    var workers: seq<Worker>
    var idleWorkers: seq<nat>
    var activeCount: nat
    var totalTasks: nat
    /** Every worker that joined or left so far. */
    ghost var changes: seq<Change>

    /** No worker is listed twice, and each has the id it joined with. */
    ghost predicate Valid()
      reads this
    {
      (forall i, j :: 0 <= i < j < |workers| ==> workers[i] != workers[j]) &&
      |workers| == |Ids(changes)| && forall i :: 0 <= i < |workers| ==> workers[i].id == Ids(changes)[i]
    }

    ghost function States(): seq<WorkerState>
      reads this, workers
    {
      seq(|workers|, i requires 0 <= i < |workers| reads this, workers => workers[i].state)
    }

    ghost function View(): Pool
      reads this, workers
    {
      Pool(States(), idleWorkers, activeCount)
    }

    constructor (cfg: Config)
      ensures Valid() && this.cfg == cfg && View() == Pool([], [], 0) && changes == []
    {
      this.cfg := cfg;
      changes := [];
      workers, idleWorkers, activeCount, totalTasks := [], [], 0, 0;
    }

    method AddWorker() returns (ok: bool)
      requires Valid()
      modifies this`workers, this`idleWorkers, this`changes
      ensures Valid() && View() == Added(cfg, old(View()))
      ensures changes == if ok then old(changes) + [Join] else old(changes)
      ensures ok <==> |old(workers)| < cfg.maxWorkers
      ensures activeCount == old(activeCount)
      ensures ok && |old(idleWorkers)| < |old(workers)| + 1 ==> idleWorkers == old(idleWorkers) + [|old(workers)|]
      ensures if ok then |workers| == |old(workers)| + 1 && workers[..|old(workers)|] == old(workers) &&
                         fresh(workers[|old(workers)|]) && workers[|old(workers)|].id == |old(workers)|
              else workers == old(workers)
    {
      var workerId := |workers|;
      if workerId >= cfg.maxWorkers {
        return false;
      }
      ghost var states := States();
      var worker := new Worker(workerId);
      workers := workers + [worker];
      changes := changes + [Join];
      assert changes[..|changes| - 1] == old(changes);
      idleWorkers := Enqueue(cfg, idleWorkers, workerId);
      assert States() == states + [Idle];
      return true;
    }

    /** Hands out the worker at the front of the queue, whatever its state: a paused worker
        is handed out too. */
    method AcquireWorker() returns (w: Worker?)
      requires Valid()
      modifies this`idleWorkers, this`activeCount, workers
      ensures Valid() && View() == Acquired(old(View()))
      ensures w != null <==> AcquiredId(old(View())).Some?
      ensures w != null ==> w == workers[AcquiredId(old(View())).value] && w.state == Processing
      ensures w != null ==> old(idleWorkers) != [] && old(idleWorkers)[0] < |workers| && w == workers[old(idleWorkers)[0]]
      ensures idleWorkers == if old(idleWorkers) == [] then [] else old(idleWorkers)[1..]
      ensures activeCount == old(activeCount) + (if w != null then 1 else 0)
      ensures forall v :: v in workers && v != w ==> v.state == old(v.state)
    {
      if idleWorkers != [] {
        var id := idleWorkers[0];
        idleWorkers := idleWorkers[1..];
        if id < |workers| {
          ghost var states := States();
          var worker := workers[id];
          worker.state := Processing;
          activeCount := activeCount + 1;
          assert States() == states[id := Processing];
          return worker;
        }
      }
      return null;
    }

    /** Requeues the worker under the id it joined with, wherever it is now. */
    method ReleaseWorker(worker: Worker, processingTimeMs: nat)
      requires Valid()
      modifies this`idleWorkers, this`activeCount, this`totalTasks, worker
      ensures Valid() && changes == old(changes)
      ensures View() == Released(cfg, old(View()), Find(workers, worker), worker.id)
      ensures var k := Find(workers, worker);
              k.Some? ==> (worker.id == k.value <==> LeftBelow(changes)[k.value] == 0)
      ensures worker.tasksProcessed == old(worker.tasksProcessed) + 1
      ensures worker.totalProcessingTimeMs == old(worker.totalProcessingTimeMs) + processingTimeMs
      ensures totalTasks == old(totalTasks) + 1 && worker.state == Idle
      ensures activeCount == (if old(activeCount) > 0 then old(activeCount) - 1 else 0xFFFF_FFFF_FFFF_FFFF)
      ensures |old(idleWorkers)| < cfg.maxWorkers ==> idleWorkers == old(idleWorkers) + [worker.id]
      ensures |old(idleWorkers)| >= cfg.maxWorkers >= 1 ==> idleWorkers == old(idleWorkers)
    {
      hide Ids, LeftBelow;
      ghost var states, k := States(), Find(workers, worker);
      if k.Some? { IdNamesPosition(changes, k.value); }
      worker.tasksProcessed := worker.tasksProcessed + 1;
      worker.totalProcessingTimeMs := worker.totalProcessingTimeMs + processingTimeMs;
      worker.state := Idle;
      assert States() == if k.Some? then states[k.value := Idle] else states;
      activeCount := if activeCount > 0 then activeCount - 1 else TWO_64 - 1;
      idleWorkers := Enqueue(cfg, idleWorkers, worker.id);
      totalTasks := totalTasks + 1;
    }

    method SwitchAll(from: WorkerState, to: WorkerState)
      requires Valid()
      modifies workers
      ensures View() == old(View()).(states := Switched(old(States()), from, to))
    {
      hide Ids;
      ghost var states := States();
      for i := 0 to |workers|
        invariant forall j :: 0 <= j < i ==> workers[j].state == if states[j] == from then to else states[j]
        invariant forall j :: i <= j < |workers| ==> workers[j].state == states[j]
      {
        if workers[i].state == from {
          workers[i].state := to;
        }
      }
    }

    /** Touches neither the queue nor busy workers. */
    method PauseAll()
      requires Valid()
      modifies workers
      ensures View() == old(View()).(states := Switched(old(States()), Idle, Paused))
      ensures forall w :: w in workers ==> w.state == if old(w.state) == Idle then Paused else old(w.state)
    {
      hide Valid;
      ghost var states := States();
      assert forall i :: 0 <= i < |workers| ==> states[i] == workers[i].state;
      SwitchAll(Idle, Paused);
      forall w | w in workers ensures w.state == if old(w.state) == Idle then Paused else old(w.state) {
        var i :| 0 <= i < |workers| && workers[i] == w;
        assert States()[i] == w.state;
      }
    }

    method ResumeAll()
      requires Valid()
      modifies workers
      ensures View() == old(View()).(states := Switched(old(States()), Paused, Idle))
      ensures forall w :: w in workers ==> w.state == if old(w.state) == Paused then Idle else old(w.state)
    {
      hide Valid;
      ghost var states := States();
      assert forall i :: 0 <= i < |workers| ==> states[i] == workers[i].state;
      SwitchAll(Paused, Idle);
      forall w | w in workers ensures w.state == if old(w.state) == Paused then Idle else old(w.state) {
        var i :| 0 <= i < |workers| && workers[i] == w;
        assert States()[i] == w.state;
      }
    }

    /** The backwards scan for any idle worker. */
    method ScanIdle() returns (r: Option<nat>)
      ensures r == LastIdle(States())
    {
      var j := |workers|;
      while j > 0
        invariant 0 <= j <= |workers|
        invariant LastIdle(States()) == LastIdle(States()[..j])
      {
        j := j - 1;
        assert States()[..j + 1][..j] == States()[..j];
        if workers[j].state == Idle {
          return Some(j);
        }
      }
      return None;
    }

    /** Drains a queue past position `i` and refills it. */
    method Renumber(queue: seq<nat>, i: nat) returns (refilled: seq<nat>)
      requires |queue| <= Capacity(cfg)
      ensures refilled == Relabel(queue, i)
    {
      var pending: seq<nat> := [];
      var rest := queue;
      while rest != []
        invariant |pending| + |rest| <= |queue|
        invariant Relabel(queue, i) == pending + Relabel(rest, i)
        decreases |rest|
      {
        var id := rest[0];
        rest := rest[1..];
        if id != i {
          pending := pending + [if id > i then id - 1 else id];
        }
      }
      refilled := [];
      for k := 0 to |pending|
        invariant refilled == pending[..k]
      {
        assert pending[..k + 1] == pending[..k] + [pending[k]];
        refilled := Enqueue(cfg, refilled, pending[k]);
      }
      assert pending[..|pending|] == pending;
    }

    /** Pops a candidate and validates it, falling back to the scan. The candidate leaves
        the queue either way. */
    method ChooseIdle() returns (chosen: Option<nat>)
      requires |workers| > cfg.minLimit
      modifies this`idleWorkers
      ensures chosen == RemovedId(cfg, old(View()))
      ensures idleWorkers == if old(idleWorkers) == [] then [] else old(idleWorkers)[1..]
    {
      hide LastIdle;
      ghost var states := States();
      var candidate := if idleWorkers == [] then None else Some(idleWorkers[0]);
      if idleWorkers != [] {
        idleWorkers := idleWorkers[1..];
      }
      assert States() == states && old(View()).states == states;
      assert candidate.Some? && candidate.value < |workers| ==>
        states[candidate.value] == workers[candidate.value].state;
      if candidate.Some? && candidate.value < |workers| && workers[candidate.value].state == Idle {
        chosen := candidate;
      } else {
        chosen := ScanIdle();
        assert States() == states;
      }
    }

    /** Removes a worker only from among the idle, and says which. */
    method RemoveIdleWorker() returns (removed: Option<nat>)
      requires Valid() && |idleWorkers| <= Capacity(cfg)
      modifies this`workers, this`idleWorkers, this`changes, workers
      ensures Valid() && removed == RemovedId(cfg, old(View()))
      ensures changes == if removed.Some? then old(changes) + [Leave(removed.value)] else old(changes)
      ensures View() == Removed(cfg, old(View()))
      ensures removed.None? ==> workers == old(workers)
      ensures removed.Some? ==> removed.value < |old(workers)| && old(workers)[removed.value].state == Stopping
      ensures removed.Some? ==> workers == Cut(old(workers), removed.value)
    {
      hide Relabel, LastIdle, RemovedId;
      if |workers| <= cfg.minLimit {
        NoneBelowLimit(cfg, View());
        return None;
      }
      ghost var p := View();
      RemovedInRange(cfg, p);
      removed := ChooseIdle();
      assert States() == p.states;
      if removed.Some? {
        var i := removed.value;
        workers[i].state := Stopping;
        workers := Cut(workers, i);
        changes := changes + [Leave(i)];
        assert changes[..|changes| - 1] == old(changes);
        assert States() == Cut(p.states, i);
        idleWorkers := Renumber(idleWorkers, i);
      }
    }

    /** The body of the auto-scaler loop. */
    method ScalerTick(load: nat)
      requires Valid() && |idleWorkers| <= Capacity(cfg)
      modifies this`workers, this`idleWorkers, this`changes, workers
      ensures Valid() && View() == Tick(cfg, old(View()), load)
    {
      hide Removed, Relabel;
      var workerCount := |workers|;
      if load > cfg.scaleUp && workerCount < cfg.maxWorkers {
        var added := AddWorker();
      }
      if load < cfg.scaleDown && workerCount > cfg.minLimit {
        if (workerCount - activeCount) % TWO_64 > 1 {
          var removed := RemoveIdleWorker();
        }
      }
    }
  }

  lemma NoneBelowLimit(cfg: Config, p: Pool)
    requires |p.states| <= cfg.minLimit
    ensures RemovedId(cfg, p).None?
  {
  }

  lemma RemovedInRange(cfg: Config, p: Pool)
    ensures RemovedId(cfg, p).Some? ==> RemovedId(cfg, p).value < |p.states|
  {
  }
}
