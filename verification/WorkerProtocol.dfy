/** Every interleaving of adding, acquiring, releasing, pausing and resuming workers in
    src/worker_pool.rs, one atomic section at a time, while no worker is removed. Lock
    exclusion is not assumed, so the claims hold for more interleavings than the code has. */
module WorkerProtocol {
  import opened Wrappers
  import opened WorkerPools

  datatype Phase =
    | Out
    | Adding(id: nat)       // worker pushed to the vector, its id not yet queued
    | Popped(id: nat)       // acquire: id popped, not yet looked up
    | Marked(id: nat)       // acquire: worker set to Processing, not yet counted
    | Held(id: nat)         // handed out
    | Returned(id: nat)     // release: worker set to Idle, still counted
    | Requeuing(id: nat)    // release: no longer counted, its id not yet queued
    | Saw(id: nat, pausing: bool) // pause or resume: read this worker's state, about to write it

  datatype Shared = Shared(pool: Pool, lost: nat) // `lost` counts ids dropped by a push or a failed look-up

  datatype Local = Local(shared: Shared, phase: Phase)

  datatype System = System(shared: Shared, slots: seq<Phase>)

  datatype Step =
    | AddWorker(slot: nat)
    | QueueAdded(slot: nat)
    | Pop(slot: nat)
    | LookUp(slot: nat)
    | CountUp(slot: nat)
    | Release(slot: nat)
    | CountDown(slot: nat)
    | Requeue(slot: nat)
    | Look(slot: nat, id: nat, pausing: bool)
    | Write(slot: nat)

  function Start(slots: nat): System { System(Shared(Pool([], [], 0), 0), seq(slots, _ => Out)) }

  function Push(cfg: Config, s: Shared, id: nat): Shared {
    Shared(s.pool.(queue := Enqueue(cfg, s.pool.queue, id)),
           if |s.pool.queue| < Capacity(cfg) then s.lost else s.lost + 1)
  }

  function SetState(s: Shared, id: nat, state: WorkerState): Shared {
    if id < |s.pool.states| then s.(pool := s.pool.(states := s.pool.states[id := state])) else s
  }

  function SetActive(s: Shared, active: nat): Shared { s.(pool := s.pool.(active := active)) }

  /** One atomic section; a slot that is elsewhere in its code does nothing. */
  function Act(cfg: Config, a: Local, step: Step): Local {
    var s, p, pool := a.shared, a.phase, a.shared.pool;
    match step
    case AddWorker(_) =>
      if p != Out || |pool.states| >= cfg.maxWorkers then a
      else Local(s.(pool := pool.(states := pool.states + [Idle])), Adding(|pool.states|))
    case QueueAdded(_) => if p.Adding? then Local(Push(cfg, s, p.id), Out) else a
    case Pop(_) =>
      if p != Out || pool.queue == [] then a
      else Local(s.(pool := pool.(queue := pool.queue[1..])), Popped(pool.queue[0]))
    case LookUp(_) =>
      if !p.Popped? then a
      else if p.id < |pool.states| then Local(SetState(s, p.id, Processing), Marked(p.id))
      else Local(s.(lost := s.lost + 1), Out)
    case CountUp(_) => if p.Marked? then Local(SetActive(s, pool.active + 1), Held(p.id)) else a
    case Release(_) => if p.Held? then Local(SetState(s, p.id, Idle), Returned(p.id)) else a
    case CountDown(_) =>
      if p.Returned? && pool.active > 0 then Local(SetActive(s, pool.active - 1), Requeuing(p.id)) else a
    case Requeue(_) => if p.Requeuing? then Local(Push(cfg, s, p.id), Out) else a
    case Look(_, id, pausing) =>
      if p == Out && id < |pool.states| && pool.states[id] == (if pausing then Idle else Paused)
      then Local(s, Saw(id, pausing))
      else a
    case Write(_) => if p.Saw? then Local(SetState(s, p.id, if p.pausing then Paused else Idle), Out) else a
  }

  function Next(cfg: Config, y: System, step: Step): System {
    if step.slot < |y.slots| then
      var a := Act(cfg, Local(y.shared, y.slots[step.slot]), step);
      System(a.shared, y.slots[step.slot := a.phase])
    else y
  }

  function Run(cfg: Config, slots: nat, steps: seq<Step>): System {
    if steps == [] then Start(slots) else Next(cfg, Run(cfg, slots, steps[..|steps| - 1]), steps[|steps| - 1])
  }

  // ---------------------------------------------------------------- who has which id

  /** The ids a slot has in its hands. */
  function IdsOf(p: Phase): multiset<nat> {
    if p.Out? || p.Saw? then multiset{} else multiset{p.id}
  }

  function Counted(p: Phase): nat { if p.Held? || p.Returned? then 1 else 0 }

  function Bag(slots: seq<Phase>): multiset<nat> {
    if slots == [] then multiset{} else IdsOf(slots[0]) + Bag(slots[1..])
  }

  function Sum(slots: seq<Phase>): nat {
    if slots == [] then 0 else Counted(slots[0]) + Sum(slots[1..])
  }

  /** Every position below `n`, once. */
  function Range(n: nat): multiset<nat> {
    if n == 0 then multiset{} else Range(n - 1) + multiset{n - 1}
  }

  lemma {:induction false} RangeCount(n: nat)
    ensures |Range(n)| == n && forall k: nat :: Range(n)[k] == if k < n then 1 else 0
  {
    if n > 0 {
      RangeCount(n - 1);
      forall k: nat ensures Range(n)[k] == if k < n then 1 else 0 {
        assert Range(n)[k] == Range(n - 1)[k] + multiset{n - 1}[k];
      }
    }
  }

  lemma {:induction false} SlotUpdate(slots: seq<Phase>, i: nat, p: Phase)
    requires i < |slots|
    ensures Bag(slots[i := p]) + IdsOf(slots[i]) == Bag(slots) + IdsOf(p)
    ensures Sum(slots[i := p]) + Counted(slots[i]) == Sum(slots) + Counted(p)
  {
    if i > 0 {
      SlotUpdate(slots[1..], i - 1, p);
      assert slots[i := p][1..] == slots[1..][i - 1 := p];
      var first, rest, rest' := IdsOf(slots[0]), Bag(slots[1..]), Bag(slots[i := p][1..]);
      assert (first + rest') + IdsOf(slots[i]) == first + (rest + IdsOf(p));
    } else {
      assert slots[i := p][1..] == slots[1..];
    }
  }

  /** Queued ids and ids in hand are the positions, each once; nothing was lost; the
      counter counts the workers handed out and not yet counted back. */
  ghost predicate Partition(cfg: Config, y: System) {
    var pool := y.shared.pool;
    multiset(pool.queue) + Bag(y.slots) == Range(|pool.states|) &&
    |pool.states| <= cfg.maxWorkers && y.shared.lost == 0 && pool.active == Sum(y.slots)
  }

  ghost function Hands(a: Local): multiset<nat> { multiset(a.shared.pool.queue) + IdsOf(a.phase) }

  /** A section moves ids between the queue and its slot, or adds the next position; it
      loses none when the queue has room and the id exists. */
  lemma HandsAct(cfg: Config, a: Local, step: Step)
    requires a.phase.Adding? || a.phase.Requeuing? ==> |a.shared.pool.queue| < Capacity(cfg)
    requires a.phase.Popped? ==> a.phase.id < |a.shared.pool.states|
    ensures var b := Act(cfg, a, step);
            Hands(b) + Range(|a.shared.pool.states|) == Hands(a) + Range(|b.shared.pool.states|) &&
            b.shared.lost == a.shared.lost
  {
    hide Range;
    match step {
      case AddWorker(_) => AddHands(cfg, a, step);
      case Pop(_) => PopHands(cfg, a, step);
      case QueueAdded(_) => PushHands(cfg, a, step);
      case Requeue(_) => PushHands(cfg, a, step);
      case _ =>
        hide Act;
        SameHands(cfg, a, step);
    }
  }

  lemma PushHands(cfg: Config, a: Local, step: Step)
    requires step.QueueAdded? || step.Requeue?
    requires a.phase.Adding? || a.phase.Requeuing? ==> |a.shared.pool.queue| < Capacity(cfg)
    ensures var b := Act(cfg, a, step);
            Hands(b) == Hands(a) && b.shared.lost == a.shared.lost && b.shared.pool.states == a.shared.pool.states
  {
    hide Capacity;
  }

  lemma AddHands(cfg: Config, a: Local, step: Step)
    requires step.AddWorker?
    ensures var b := Act(cfg, a, step);
            Hands(b) + Range(|a.shared.pool.states|) == Hands(a) + Range(|b.shared.pool.states|)
  {
  }

  lemma PopHands(cfg: Config, a: Local, step: Step)
    requires step.Pop?
    ensures Hands(Act(cfg, a, step)) == Hands(a)
  {
    var q := a.shared.pool.queue;
    if q != [] { assert q == [q[0]] + q[1..]; }
  }

  /** The other sections leave the queue, the number of workers and the ids in hand alone. */
  ghost predicate Untouched(a: Local, b: Local) {
    b.shared.pool.queue == a.shared.pool.queue && |b.shared.pool.states| == |a.shared.pool.states| &&
    IdsOf(b.phase) == IdsOf(a.phase) && b.shared.lost == a.shared.lost
  }

  lemma SameHands(cfg: Config, a: Local, step: Step)
    requires !step.AddWorker? && !step.Pop? && !step.QueueAdded? && !step.Requeue?
    requires a.phase.Popped? ==> a.phase.id < |a.shared.pool.states|
    ensures Untouched(a, Act(cfg, a, step))
  {
    hide Act, Untouched;
    if step.LookUp? || step.CountUp? || step.Release? || step.CountDown? {
      WorkerHands(cfg, a, step);
    } else {
      PauseHands(cfg, a, step);
    }
  }

  lemma WorkerHands(cfg: Config, a: Local, step: Step)
    requires step.LookUp? || step.CountUp? || step.Release? || step.CountDown?
    requires a.phase.Popped? ==> a.phase.id < |a.shared.pool.states|
    ensures Untouched(a, Act(cfg, a, step))
  {
    hide Enqueue, Push;
  }

  lemma PauseHands(cfg: Config, a: Local, step: Step)
    requires step.Look? || step.Write?
    ensures Untouched(a, Act(cfg, a, step))
  {
  }

  lemma CountAct(cfg: Config, a: Local, step: Step)
    requires |a.shared.pool.states| <= cfg.maxWorkers
    ensures var b := Act(cfg, a, step);
            b.shared.pool.active + Counted(a.phase) == a.shared.pool.active + Counted(b.phase) &&
            |b.shared.pool.states| <= cfg.maxWorkers
  {
  }

  lemma {:induction false} InHand(slots: seq<Phase>, i: nat)
    requires i < |slots|
    ensures IdsOf(slots[i]) <= Bag(slots)
  {
    if i > 0 { InHand(slots[1..], i - 1); }
  }

  /** A slot with an id in hand leaves the queue short of its capacity, and its id is a
      position. */
  lemma RoomForHeld(cfg: Config, y: System, i: nat)
    requires Partition(cfg, y) && i < |y.slots| && !y.slots[i].Out? && !y.slots[i].Saw?
    ensures |y.shared.pool.queue| < Capacity(cfg) && y.slots[i].id < |y.shared.pool.states|
  {
    InHand(y.slots, i);
    RangeCount(|y.shared.pool.states|);
    var q, b := multiset(y.shared.pool.queue), Bag(y.slots);
    assert b == multiset{y.slots[i].id} + (b - multiset{y.slots[i].id});
    assert |q + b| == |q| + |b| && |q| == |y.shared.pool.queue|;
    assert (q + b)[y.slots[i].id] >= 1;
  }

  lemma Balance(q: multiset<nat>, q': multiset<nat>, b: multiset<nat>, b': multiset<nat>,
                o: multiset<nat>, n: multiset<nat>, r: multiset<nat>, r': multiset<nat>)
    requires q + b == r && b' + o == b + n && (q' + n) + r == (q + o) + r'
    ensures q' + b' == r'
  {
    forall k ensures (q' + b')[k] == r'[k] {
      assert (q + b)[k] == r[k] && (b' + o)[k] == (b + n)[k];
      assert ((q' + n) + r)[k] == ((q + o) + r')[k];
    }
  }

  lemma StepPartition(cfg: Config, y: System, step: Step)
    requires Partition(cfg, y)
    ensures Partition(cfg, Next(cfg, y, step))
  {
    hide Act, Bag, Sum, Range;
    var i := step.slot;
    if i < |y.slots| {
      var a := Local(y.shared, y.slots[i]);
      var b := Act(cfg, a, step);
      if !y.slots[i].Out? && !y.slots[i].Saw? { RoomForHeld(cfg, y, i); }
      HandsAct(cfg, a, step);
      CountAct(cfg, a, step);
      SlotUpdate(y.slots, i, b.phase);
      Balance(multiset(y.shared.pool.queue), multiset(b.shared.pool.queue), Bag(y.slots), Bag(y.slots[i := b.phase]),
              IdsOf(y.slots[i]), IdsOf(b.phase), Range(|y.shared.pool.states|), Range(|b.shared.pool.states|));
    }
  }

  lemma {:induction false} AllOut(slots: seq<Phase>)
    requires forall i :: 0 <= i < |slots| ==> slots[i] == Out
    ensures Bag(slots) == multiset{} && Sum(slots) == 0
  {
    if slots != [] { AllOut(slots[1..]); }
  }

  lemma {:induction false} RunPartition(cfg: Config, slots: nat, steps: seq<Step>)
    ensures Partition(cfg, Run(cfg, slots, steps))
  {
    hide Partition, Next;
    if steps == [] {
      StartPartition(cfg, slots);
    } else {
      RunPartition(cfg, slots, steps[..|steps| - 1]);
      StepPartition(cfg, Run(cfg, slots, steps[..|steps| - 1]), steps[|steps| - 1]);
    }
  }

  lemma StartPartition(cfg: Config, slots: nat)
    ensures Partition(cfg, Start(slots))
  {
    AllOut(Start(slots).slots);
  }

  lemma {:induction false} TwoInHand(slots: seq<Phase>, i: nat, j: nat)
    requires i < j < |slots|
    ensures IdsOf(slots[i]) + IdsOf(slots[j]) <= Bag(slots)
  {
    hide IdsOf;
    if i > 0 {
      TwoInHand(slots[1..], i - 1, j - 1);
      assert Bag(slots[1..]) <= Bag(slots);
    } else {
      InHand(slots[1..], j - 1);
    }
  }

  /** No worker is in two hands, and none in hand is queued. */
  lemma NoWorkerTwice(cfg: Config, slots: nat, steps: seq<Step>, i: nat, j: nat)
    requires var s := Run(cfg, slots, steps).slots;
             i < |s| && j < |s| && i != j && s[i].Held? && !s[j].Out? && !s[j].Saw?
    ensures var y := Run(cfg, slots, steps);
            y.slots[i].id != y.slots[j].id && y.slots[i].id !in y.shared.pool.queue &&
            y.slots[i].id < |y.shared.pool.states|
  {
    hide Run;
    var y := Run(cfg, slots, steps);
    RunPartition(cfg, slots, steps);
    RoomForHeld(cfg, y, i);
    RangeCount(|y.shared.pool.states|);
    InHand(y.slots, i);
    TwoInHand(y.slots, if i < j then i else j, if i < j then j else i);
    var id := y.slots[i].id;
    var all := multiset(y.shared.pool.queue) + Bag(y.slots);
    assert all[id] == 1;
    assert (IdsOf(y.slots[i]) + IdsOf(y.slots[j]))[id] <= Bag(y.slots)[id];
    assert Bag(y.slots)[id] >= IdsOf(y.slots[i])[id] == 1;
    assert id in y.shared.pool.queue ==> multiset(y.shared.pool.queue)[id] >= 1;
  }

  /** No look-up fails and no push is dropped, in any interleaving. */
  lemma NothingIsLost(cfg: Config, slots: nat, steps: seq<Step>)
    ensures Run(cfg, slots, steps).shared.lost == 0
  {
    RunPartition(cfg, slots, steps);
  }

  /** No add, acquire or release is halfway. */
  predicate Quiet(y: System) {
    forall i :: 0 <= i < |y.slots| ==> y.slots[i].Out? || y.slots[i].Saw? || y.slots[i].Held?
  }

  lemma {:induction false} QuietSizes(slots: seq<Phase>)
    requires forall i :: 0 <= i < |slots| ==> slots[i].Out? || slots[i].Saw? || slots[i].Held?
    ensures |Bag(slots)| == Sum(slots)
  {
    if slots != [] { QuietSizes(slots[1..]); }
  }

  /** The counter settles to the number of workers out, and everyone else is queued. */
  lemma CounterSettles(cfg: Config, slots: nat, steps: seq<Step>)
    requires Quiet(Run(cfg, slots, steps))
    ensures var y := Run(cfg, slots, steps);
            y.shared.pool.active == |Bag(y.slots)| &&
            y.shared.pool.active + |y.shared.pool.queue| == |y.shared.pool.states|
  {
    hide Run;
    var y := Run(cfg, slots, steps);
    RunPartition(cfg, slots, steps);
    QuietSizes(y.slots);
    RangeCount(|y.shared.pool.states|);
    var q := multiset(y.shared.pool.queue);
    assert |q + Bag(y.slots)| == |q| + |Bag(y.slots)| && |q| == |y.shared.pool.queue|;
  }

  // ---------------------------------------------------------------- against the sequential model

  /** Run without interruption, the sections of a call do what the call does; pausing and
      resuming go worker by worker. */
  lemma SectionsMakeCalls(cfg: Config, pool: Pool, lost: nat, id: nat, pausing: bool)
    ensures var a := Local(Shared(pool, lost), Out);
            Act(cfg, Act(cfg, a, AddWorker(0)), QueueAdded(0)).shared.pool == Added(cfg, pool)
    ensures var a := Local(Shared(pool, lost), Out);
            var b := Act(cfg, Act(cfg, Act(cfg, a, Pop(0)), LookUp(0)), CountUp(0));
            b.shared.pool == Acquired(pool) &&
            b.phase == if AcquiredId(pool).Some? then Held(AcquiredId(pool).value) else Out
    ensures pool.active > 0 ==>
      Act(cfg, Act(cfg, Act(cfg, Local(Shared(pool, lost), Held(id)), Release(0)), CountDown(0)), Requeue(0)).shared.pool ==
      Released(cfg, pool, Some(id), id)
    ensures var b := Act(cfg, Act(cfg, Local(Shared(pool, lost), Out), Look(0, id, pausing)), Write(0));
            var from, to := if pausing then Idle else Paused, if pausing then Paused else Idle;
            b == Local(Shared(if id < |pool.states| && pool.states[id] == from
                              then pool.(states := pool.states[id := to]) else pool, lost), Out)
  {
  }

  /** The worker's state that goes with a place in the code. */
  predicate StateFits(states: seq<WorkerState>, p: Phase) {
    p.Out? || (!p.Saw? && p.id < |states| &&
               states[p.id] == if p.Marked? || p.Held? then Processing else Idle)
  }

  /** Queued workers are idle, those handed out are processing. */
  ghost predicate StatesAgree(y: System) {
    (forall i :: 0 <= i < |y.shared.pool.queue| ==>
       y.shared.pool.queue[i] < |y.shared.pool.states| && y.shared.pool.states[y.shared.pool.queue[i]] == Idle) &&
    forall i :: 0 <= i < |y.slots| ==> StateFits(y.shared.pool.states, y.slots[i])
  }

  /** An id in a slot's hands is in no other slot's and not queued. */
  lemma HeldAlone(cfg: Config, y: System, i: nat)
    requires Partition(cfg, y) && i < |y.slots| && !y.slots[i].Out? && !y.slots[i].Saw?
    ensures y.slots[i].id !in y.shared.pool.queue
    ensures forall j :: 0 <= j < |y.slots| && j != i && !y.slots[j].Out? && !y.slots[j].Saw? ==>
      y.slots[j].id != y.slots[i].id
  {
    var id := y.slots[i].id;
    RangeCount(|y.shared.pool.states|);
    InHand(y.slots, i);
    var all := multiset(y.shared.pool.queue) + Bag(y.slots);
    assert all[id] <= 1 && IdsOf(y.slots[i])[id] == 1;
    assert id in y.shared.pool.queue ==> multiset(y.shared.pool.queue)[id] >= 1;
    forall j | 0 <= j < |y.slots| && j != i && !y.slots[j].Out? && !y.slots[j].Saw? ensures y.slots[j].id != id {
      TwoInHand(y.slots, if i < j then i else j, if i < j then j else i);
      assert (IdsOf(y.slots[i]) + IdsOf(y.slots[j]))[id] <= Bag(y.slots)[id];
    }
  }

  lemma StepStates(cfg: Config, y: System, step: Step)
    requires Partition(cfg, y) && StatesAgree(y) && !step.Look?
    ensures StatesAgree(Next(cfg, y, step))
  {
    hide Partition;
    var i := step.slot;
    if i < |y.slots| {
      var p := y.slots[i];
      if !p.Out? && !p.Saw? {
        HeldAlone(cfg, y, i);
        RoomForHeld(cfg, y, i);
      }
      var a := Act(cfg, Local(y.shared, p), step);
      ActStates(cfg, y, i, step);
    }
  }

  lemma ActStates(cfg: Config, y: System, i: nat, step: Step)
    requires StatesAgree(y) && !step.Look? && i == step.slot < |y.slots|
    requires var p := y.slots[i];
             !p.Out? && !p.Saw? ==>
               p.id !in y.shared.pool.queue && p.id < |y.shared.pool.states| &&
               forall j :: 0 <= j < |y.slots| && j != i && !y.slots[j].Out? && !y.slots[j].Saw? ==> y.slots[j].id != p.id
    ensures StatesAgree(Next(cfg, y, step))
  {
    var p, y' := y.slots[i], Next(cfg, y, step);
    forall k | 0 <= k < |y'.shared.pool.queue|
      ensures y'.shared.pool.queue[k] < |y'.shared.pool.states| && y'.shared.pool.states[y'.shared.pool.queue[k]] == Idle
    {
      var x := y'.shared.pool.queue[k];
      assert x in y.shared.pool.queue || (!p.Out? && !p.Saw? && x == p.id);
    }
    forall j | 0 <= j < |y'.slots| ensures StateFits(y'.shared.pool.states, y'.slots[j]) {
      assert StateFits(y.shared.pool.states, y.slots[j]);
    }
  }

  lemma {:induction false} RunStates(cfg: Config, slots: nat, steps: seq<Step>)
    requires forall i :: 0 <= i < |steps| ==> !steps[i].Look?
    ensures StatesAgree(Run(cfg, slots, steps))
  {
    if steps != [] {
      RunStates(cfg, slots, steps[..|steps| - 1]);
      RunPartition(cfg, slots, steps[..|steps| - 1]);
      hide Partition, Next, StatesAgree;
      StepStates(cfg, Run(cfg, slots, steps[..|steps| - 1]), steps[|steps| - 1]);
    }
  }

  /** When nothing is halfway and nobody was paused, the pool is settled: whatever the
      interleaving was, the sequential results apply to what it left. */
  lemma QuietIsSettled(cfg: Config, slots: nat, steps: seq<Step>)
    requires Quiet(Run(cfg, slots, steps)) && forall i :: 0 <= i < |steps| ==> !steps[i].Look?
    ensures Settled(Run(cfg, slots, steps).shared.pool)
  {
    var y := Run(cfg, slots, steps);
    RunStates(cfg, slots, steps);
    RunPartition(cfg, slots, steps);
    CounterSettles(cfg, slots, steps);
    hide Run, StatesAgree, Partition;
    QueuedOnce(cfg, y);
    QueuedAreIdle(cfg, y);
    IdleAndBusy(y.shared.pool.states, y.shared.pool.queue);
  }

  lemma QueuedOnce(cfg: Config, y: System)
    requires Partition(cfg, y)
    ensures NoRepeats(y.shared.pool.queue)
  {
    var q := y.shared.pool.queue;
    RangeCount(|y.shared.pool.states|);
    forall i, j | 0 <= i < j < |q| ensures q[i] != q[j] {
      assert (multiset(q) + Bag(y.slots))[q[i]] <= 1;
      if q[i] == q[j] { TwiceQueued(q, i, j); }
    }
  }

  lemma QueuedAreIdle(cfg: Config, y: System)
    requires Partition(cfg, y) && StatesAgree(y) && Quiet(y)
    ensures InRange(y.shared.pool.queue, |y.shared.pool.states|)
    ensures forall k :: 0 <= k < |y.shared.pool.states| ==>
      (k in y.shared.pool.queue <==> y.shared.pool.states[k] == Idle) &&
      (y.shared.pool.states[k] == Idle || y.shared.pool.states[k] == Processing)
  {
    var pool, q := y.shared.pool, multiset(y.shared.pool.queue);
    RangeCount(|pool.states|);
    forall k: nat | k < |pool.states| ensures k in pool.queue <==> pool.states[k] == Idle
      ensures pool.states[k] == Idle || pool.states[k] == Processing
    {
      if k !in pool.queue {
        assert (q + Bag(y.slots))[k] == 1;
        assert k in Bag(y.slots);
        var i := WhoHolds(y.slots, k);
        assert StateFits(pool.states, y.slots[i]);
      }
    }
  }

  lemma TwiceQueued(queue: seq<nat>, i: nat, j: nat)
    requires i < j < |queue| && queue[i] == queue[j]
    ensures multiset(queue)[queue[i]] >= 2
  {
    assert queue == queue[..j] + queue[j..] && queue[..j][i] == queue[i] && queue[j..][0] == queue[i];
    assert queue[i] in queue[..j] && queue[i] in queue[j..];
    assert multiset(queue)[queue[i]] == multiset(queue[..j])[queue[i]] + multiset(queue[j..])[queue[i]];
  }

  lemma {:induction false} WhoHolds(slots: seq<Phase>, k: nat) returns (i: nat)
    requires k in Bag(slots)
    ensures i < |slots| && k in IdsOf(slots[i])
  {
    if k in IdsOf(slots[0]) {
      i := 0;
    } else {
      var j := WhoHolds(slots[1..], k);
      i := j + 1;
    }
  }

  /** Listing every idle position once leaves exactly the others to count. */
  lemma {:induction false} IdleAndBusy(states: seq<WorkerState>, queue: seq<nat>)
    requires NoRepeats(queue) && InRange(queue, |states|)
    requires forall k :: 0 <= k < |states| ==> (k in queue <==> states[k] == Idle)
    requires forall k :: 0 <= k < |states| ==> states[k] == Idle || states[k] == Processing
    ensures |queue| + CountProcessing(states) == |states|
  {
    if states == [] {
      DistinctBelow(queue, 0);
    } else {
      var n := |states| - 1;
      RelabelLength(queue, n);
      WithoutNoRepeats(queue, n);
      var rest := WithoutId(queue, n);
      forall i | 0 <= i < |rest| ensures rest[i] < n { assert rest[i] in rest && rest[i] in queue; }
      IdleAndBusy(states[..n], rest);
    }
  }
}
