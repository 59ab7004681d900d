/** The auto-scaler loop of src/worker_pool.rs: one tick, and where repeated ticks lead,
    beside whatever else happens to the pool. */
module AutoScalers {
  import opened Wrappers
  import opened WorkerPools

  /** The worker count is read once, before the tick adds anyone; the subtraction is
      unsigned. */
  function Tick(cfg: Config, p: Pool, load: nat): Pool {
    var count := |p.states|;
    var up := if load > cfg.scaleUp && count < cfg.maxWorkers then Added(cfg, p) else p;
    if load < cfg.scaleDown && count > cfg.minLimit && (count - up.active) % TWO_64 > 1 then Removed(cfg, up) else up
  }

  function Min(a: nat, b: nat): nat { if a <= b then a else b }

  function Max(a: nat, b: nat): nat { if a >= b then a else b }

  // ---------------------------------------------------------------- beside live traffic

  /** One thing that happens to a pool: a tick, or another caller's call. `Grow` and
      `Shrink` are the two halves of a tick on their own. */
  datatype Move =
    | Scale(load: nat)
    | Grow
    | Shrink
    | Acquire
    | Release(position: Option<nat>, id: nat)
    | Pause
    | Resume

  function Moved(cfg: Config, p: Pool, m: Move): Pool {
    match m
    case Scale(load) => Tick(cfg, p, load)
    case Grow => Added(cfg, p)
    case Shrink => Removed(cfg, p)
    case Acquire => Acquired(p)
    case Release(position, id) => Released(cfg, p, position, id)
    case Pause => p.(states := Switched(p.states, Idle, Paused))
    case Resume => p.(states := Switched(p.states, Paused, Idle))
  }

  function Moves(cfg: Config, p: Pool, moves: seq<Move>): Pool {
    if moves == [] then p else Moved(cfg, Moves(cfg, p, moves[..|moves| - 1]), moves[|moves| - 1])
  }

  lemma RemovedSize(cfg: Config, p: Pool)
    ensures |Removed(cfg, p).states| == |p.states| - (if RemovedId(cfg, p).Some? then 1 else 0)
    ensures |p.states| <= cfg.minLimit ==> Removed(cfg, p) == p
  {
    hide Relabel;
  }

  /** Adding and removing respect both limits whatever the state of the pool; nothing else
      changes the number of workers. */
  lemma MoveWithinLimits(cfg: Config, p: Pool, m: Move)
    ensures Min(|p.states|, cfg.minLimit) <= |Moved(cfg, p, m).states| <= Max(|p.states|, cfg.maxWorkers)
    ensures cfg.minLimit <= |p.states| <= cfg.maxWorkers ==>
      cfg.minLimit <= |Moved(cfg, p, m).states| <= cfg.maxWorkers
  {
    hide Removed, RemovedId;
    RemovedSize(cfg, p);
    RemovedSize(cfg, Added(cfg, p));
  }

  /** From any pool, over any run of ticks and traffic, and however a tick's two halves fall
      between other calls, the count stays within the limits it started within. */
  lemma {:induction false} CountWithinLimits(cfg: Config, p: Pool, moves: seq<Move>)
    ensures Min(|p.states|, cfg.minLimit) <= |Moves(cfg, p, moves).states| <= Max(|p.states|, cfg.maxWorkers)
    ensures cfg.minLimit <= |p.states| <= cfg.maxWorkers ==>
      cfg.minLimit <= |Moves(cfg, p, moves).states| <= cfg.maxWorkers
  {
    hide Moved;
    if moves != [] {
      CountWithinLimits(cfg, p, moves[..|moves| - 1]);
      MoveWithinLimits(cfg, Moves(cfg, p, moves[..|moves| - 1]), moves[|moves| - 1]);
    }
  }

  function TickCount(moves: seq<Move>): nat {
    if moves == [] then 0 else TickCount(moves[..|moves| - 1]) + (if moves[|moves| - 1].Scale? then 1 else 0)
  }

  /** Every tick sees a long queue, and only ticks add or remove. */
  predicate Busy(cfg: Config, moves: seq<Move>) {
    forall i :: 0 <= i < |moves| ==>
      !moves[i].Grow? && !moves[i].Shrink? && 
      (moves[i].Scale? ==> moves[i].load > cfg.scaleUp && moves[i].load >= cfg.scaleDown)
  }

  /** A queue that stays long adds one worker a tick up to the maximum, whatever the
      traffic in between. */
  lemma {:induction false} HighLoadFills(cfg: Config, p: Pool, moves: seq<Move>)
    requires Busy(cfg, moves)
    ensures |Moves(cfg, p, moves).states| == Max(|p.states|, Min(cfg.maxWorkers, |p.states| + TickCount(moves)))
  {
    hide Removed;
    if moves != [] { HighLoadFills(cfg, p, moves[..|moves| - 1]); }
  }

  // ---------------------------------------------------------------- ticks alone

  lemma ActiveBound(p: Pool)
    requires Settled(p)
    ensures p.active <= |p.states| && (p.active < |p.states| <==> p.queue != [])
  {
    CountBound(p.states);
    if p.active < |p.states| {
      var k :| 0 <= k < |p.states| && p.states[k] != Processing;
      assert k in p.queue;
    }
    if p.queue != [] { assert p.queue[0] in p.queue; }
  }

  lemma SpareIsDifference(count: nat, active: nat)
    requires active <= count < TWO_64
    ensures (count - active) % TWO_64 == count - active
  {
  }

  /** One tick keeps the pool settled, keeps the busy workers, and moves the count by at
      most one, between the limits. */
  lemma TickStep(cfg: Config, p: Pool, load: nat)
    requires Settled(p) && |p.states| < TWO_64
    ensures var q, n := Tick(cfg, p, load), |p.states|;
            Settled(q) && q.active == p.active &&
            |q.states| == n + (if load > cfg.scaleUp && n < cfg.maxWorkers then 1 else 0)
                            - (if load < cfg.scaleDown && n > Max(cfg.minLimit, p.active + 1) then 1 else 0)
  {
    hide Settled;
    ActiveBound(p);
    SpareIsDifference(|p.states|, p.active);
    AddKeepsSettled(cfg, p);
    RemovalKeepsSettled(cfg, p);
    ActiveBound(Added(cfg, p));
    RemovalKeepsSettled(cfg, Added(cfg, p));
  }

  /** `k` ticks at one load. */
  function Steady(load: nat, k: nat): seq<Move> { if k == 0 then [] else Steady(load, k - 1) + [Scale(load)] }

  lemma SteadyTick(cfg: Config, p: Pool, load: nat, k: nat)
    requires k > 0
    ensures Moves(cfg, p, Steady(load, k)) == Tick(cfg, Moves(cfg, p, Steady(load, k - 1)), load)
  {
  }

  /** Where a queue that stays short leads: one spare worker, unless the limit is higher. */
  function Floor(cfg: Config, p: Pool): nat { Min(|p.states|, Max(cfg.minLimit, p.active + 1)) }

  /** A queue that stays short removes one worker a tick down to that floor, which is
      reached after exactly the difference and then kept. */
  lemma {:induction false} LowLoadDrains(cfg: Config, p: Pool, load: nat, k: nat)
    requires Settled(p) && |p.states| < TWO_64
    requires load < cfg.scaleDown && load <= cfg.scaleUp
    ensures Settled(Moves(cfg, p, Steady(load, k))) && Moves(cfg, p, Steady(load, k)).active == p.active
    ensures |Moves(cfg, p, Steady(load, k)).states| ==
      if k < |p.states| - Floor(cfg, p) then |p.states| - k else Floor(cfg, p)
  {
    hide Settled, Tick;
    if k > 0 {
      LowLoadDrains(cfg, p, load, k - 1);
      SteadyTick(cfg, p, load, k);
      TickStep(cfg, Moves(cfg, p, Steady(load, k - 1)), load);
    }
  }
}
