/** Every interleaving of the inflight batcher's callers. Each slot is one call or one
    guard in progress; a step runs one atomic section of src/inflight_batch.rs. */
module InflightProtocol {
  import opened Wrappers
  import opened PriorityOrder
  import opened PriorityQueues
  import opened InflightBatch

  datatype Phase =
    | Idle
    | Added(size: nat)                                // request pushed, depth not yet stored
    | Stored(size: nat)                               // depth stored, peak not yet raised
    | Peeked                                          // the peek decided to form a batch
    | Permitted                                       // a permit is held, nothing drained yet
    | Live(batch: seq<Ordered>)                       // the guard is in the caller's hands
    | Counted(batch: seq<Ordered>, fields: nat)       // completing: this many statistics written
    | Leaving(batch: seq<Ordered>)                    // dropped, its permit not yet returned

  /** What the claims speak about but the code does not store. */
  datatype History = History(
    added: multiset<Ordered>,      // every request ever pushed
    finished: multiset<Ordered>,   // requests of guards that are gone
    cleared: multiset<Ordered>,    // requests removed by clear_queue
    departed: seq<Ordered>,        // everything that left the queue, in order
    maxDepth: nat,                 // the longest the queue has been
    completedSize: nat,            // the sizes of the batches that began to complete
    granted: nat,                  // permits taken
    released: nat)                 // permits given back

  datatype System = System(shared: Shared, slots: seq<Phase>, history: History)

  /** What one slot sees: the shared state, its own place in the code, the history. */
  datatype Local = Local(shared: Shared, phase: Phase, history: History)

  datatype Step =
    | Add(slot: nat, request: Request)
    | StoreDepth(slot: nat)
    | RaisePeak(slot: nat)
    | Peek(slot: nat, now: nat)
    | TryPermit(slot: nat)
    | Drain(slot: nat)
    | Complete(slot: nat)
    | CountSize(slot: nat)
    | CountTime(slot: nat, ms: nat)
    | DropGuard(slot: nat)
    | Release(slot: nat)
    | Clear

  function Start(cfg: Config, slots: nat): System {
    System(Initial(cfg), seq(slots, _ => Idle), History(multiset{}, multiset{}, multiset{}, [], 0, 0, 0, 0))
  }

  /** One atomic section; a slot that is elsewhere in its code does nothing. */
  function Act(cfg: Config, a: Local, step: Step): Local {
    var s, p, h := a.shared, a.phase, a.history;
    match step
    case Add(_, request) =>
      if p != Idle then a else
      var s' := PushSection(s, request);
      var n := |s'.queue.pending|;
      Local(s', Added(n), h.(added := h.added + multiset{Entry(s.queue, request)}, maxDepth := Max(h.maxDepth, n)))
    case StoreDepth(_) =>
      if p.Added? then Local(DepthSection(s, p.size), Stored(p.size), h) else a
    case RaisePeak(_) =>
      if p.Stored? then Local(PeakSection(s, p.size), Idle, h) else a
    case Peek(_, now) =>
      if p == Idle && ShouldForm(cfg, s.queue, now) then Local(s, Peeked, h) else a
    case TryPermit(_) =>
      if p != Peeked then a
      else if s.permits == 0 then Local(s, Idle, h)
      else Local(TakePermit(s), Permitted, h.(granted := h.granted + 1))
    case Drain(_) =>
      if p != Permitted then a
      else if s.queue.pending == [] then Local(s, Leaving([]), h)
      else Local(DrainSection(cfg, s), Live(TakenBatch(cfg, s)), h.(departed := h.departed + TakenBatch(cfg, s)))
    case Complete(_) =>
      if p.Live?
      then Local(CountBatch(s), Counted(p.batch, 1), h.(completedSize := h.completedSize + |p.batch|))
      else a
    case CountSize(_) =>
      if p.Counted? && p.fields == 1 then Local(CountRequests(s, |p.batch|), Counted(p.batch, 2), h) else a
    case CountTime(_, ms) =>
      if p.Counted? && p.fields == 2 then Local(CountLatency(s, ms), Counted(p.batch, 3), h) else a
    case DropGuard(_) =>
      // The end of `complete`, or a guard dropped without it; the counter goes down either way.
      if (p.Live? || (p.Counted? && p.fields == 3)) && s.inflight > 0
      then Local(DecInflight(s), Leaving(p.batch), h)
      else a
    case Release(_) =>
      if p.Leaving?
      then Local(ReturnPermit(s), Idle,
                 h.(finished := h.finished + multiset(p.batch), released := h.released + 1))
      else a
    case Clear =>
      Local(ClearSection(s), p,
            h.(cleared := h.cleared + multiset(s.queue.pending), departed := h.departed + s.queue.pending))
  }

  /** `clear_queue` is one section that any caller may run at any point. */
  function SlotOf(step: Step): nat { if step.Clear? then 0 else step.slot }

  function At(y: System, i: nat): Local
    requires i < |y.slots|
  {
    Local(y.shared, y.slots[i], y.history)
  }

  function Next(cfg: Config, y: System, step: Step): System {
    var i := SlotOf(step);
    if i < |y.slots| then
      var a := Act(cfg, At(y, i), step);
      System(a.shared, y.slots[i := a.phase], a.history)
    else y
  }

  function Run(cfg: Config, slots: nat, steps: seq<Step>): System {
    if steps == [] then Start(cfg, slots)
    else Next(cfg, Run(cfg, slots, steps[..|steps| - 1]), steps[|steps| - 1])
  }

  // ---------------------------------------------------------------- sums over the slots

  function Holds(p: Phase): nat {
    if p.Permitted? || p.Live? || p.Counted? || p.Leaving? then 1 else 0
  }

  function Inflight(p: Phase): nat { if p.Live? || p.Counted? then 1 else 0 }

  /** Completed requests whose size is not in the statistics yet. */
  function Uncounted(p: Phase): nat { if p.Counted? && p.fields <= 1 then |p.batch| else 0 }

  function BatchOf(p: Phase): seq<Ordered> {
    if p.Live? || p.Counted? || p.Leaving? then p.batch else []
  }

  function Sum(slots: seq<Phase>, f: Phase -> nat): nat {
    if slots == [] then 0 else f(slots[0]) + Sum(slots[1..], f)
  }

  function Bag(slots: seq<Phase>): multiset<Ordered> {
    if slots == [] then multiset{} else multiset(BatchOf(slots[0])) + Bag(slots[1..])
  }

  lemma {:induction false} SumUpdate(slots: seq<Phase>, f: Phase -> nat, i: nat, p: Phase)
    requires i < |slots|
    ensures Sum(slots[i := p], f) + f(slots[i]) == Sum(slots, f) + f(p)
  {
    if i > 0 {
      SumUpdate(slots[1..], f, i - 1, p);
      assert slots[i := p][1..] == slots[1..][i - 1 := p];
    } else {
      assert slots[i := p][1..] == slots[1..];
    }
  }

  lemma {:induction false} BagUpdate(slots: seq<Phase>, i: nat, p: Phase)
    requires i < |slots|
    ensures Bag(slots[i := p]) + multiset(BatchOf(slots[i])) == Bag(slots) + multiset(BatchOf(p))
  {
    if i > 0 {
      BagUpdate(slots[1..], i - 1, p);
      assert slots[i := p][1..] == slots[1..][i - 1 := p];
      var first, rest, rest' := multiset(BatchOf(slots[0])), Bag(slots[1..]), Bag(slots[i := p][1..]);
      assert (first + rest') + multiset(BatchOf(slots[i])) == first + (rest + multiset(BatchOf(p)));
    } else {
      assert slots[i := p][1..] == slots[1..];
    }
  }

  lemma {:induction false} SumBounds(slots: seq<Phase>, f: Phase -> nat, g: Phase -> nat)
    requires forall p :: f(p) <= g(p)
    ensures Sum(slots, f) <= Sum(slots, g)
  {
    if slots != [] { SumBounds(slots[1..], f, g); }
  }

  lemma {:induction false} AllIdle(slots: seq<Phase>)
    requires forall i :: 0 <= i < |slots| ==> slots[i] == Idle
    ensures Sum(slots, Holds) == 0 && Sum(slots, Inflight) == 0 && Sum(slots, Uncounted) == 0
    ensures Bag(slots) == multiset{}
  {
    if slots != [] { AllIdle(slots[1..]); }
  }

  // ---------------------------------------------------------------- the invariant, in parts

  /** Permits are conserved, and the inflight counter counts exactly the guards that
      have not been dropped. */
  ghost predicate PermitsAgree(cfg: Config, y: System) {
    y.shared.permits + Sum(y.slots, Holds) == cfg.maxInflight &&
    y.shared.inflight == Sum(y.slots, Inflight) &&
    y.history.granted == y.history.released + Sum(y.slots, Holds)
  }

  ghost predicate StatsAgree(y: System) {
    y.shared.requests + Sum(y.slots, Uncounted) == y.history.completedSize
  }

  /** Every request ever added is in exactly one place. */
  ghost predicate Conserved(y: System) {
    y.history.added ==
      multiset(y.shared.queue.pending) + Bag(y.slots) + y.history.finished + y.history.cleared
  }

  /** Every request ever added has its own ticket. */
  ghost predicate TicketsUnique(s: Shared, h: History) {
    Distinct(h.added) && forall x :: x in h.added ==> x.ticket < s.queue.nextTicket
  }

  ghost predicate Ordering(s: Shared, h: History) {
    Sound(s.queue) && NoOvertaking(h.departed, s.queue)
  }

  predicate SizeOk(cfg: Config, p: Phase) {
    p.Live? || p.Counted? ==> |p.batch| <= cfg.maxBatchSize && (cfg.maxBatchSize >= 1 ==> p.batch != [])
  }

  ghost predicate SizesOk(cfg: Config, y: System) {
    forall i :: 0 <= i < |y.slots| ==> SizeOk(cfg, y.slots[i])
  }

  predicate Carries(p: Phase, n: nat) { (p.Added? || p.Stored?) && p.size == n }

  predicate CarriesAtMost(p: Phase, n: nat) { p.Added? || p.Stored? ==> p.size <= n }

  /** The recorded peak is the longest queue ever, unless an adder still carries it. */
  ghost predicate PeakAgrees(y: System) {
    y.shared.peak <= y.history.maxDepth && |y.shared.queue.pending| <= y.history.maxDepth &&
    (forall i :: 0 <= i < |y.slots| ==> CarriesAtMost(y.slots[i], y.history.maxDepth)) &&
    (y.shared.peak == y.history.maxDepth || exists i :: 0 <= i < |y.slots| && Carries(y.slots[i], y.history.maxDepth))
  }

  // Each part is kept because of what one section does to one slot.

  lemma PermitsAct(cfg: Config, a: Local, step: Step)
    ensures var b := Act(cfg, a, step);
            b.shared.permits + Holds(b.phase) == a.shared.permits + Holds(a.phase) &&
            b.shared.inflight + Inflight(a.phase) == a.shared.inflight + Inflight(b.phase) &&
            b.history.granted + a.history.released + Holds(a.phase) ==
              a.history.granted + b.history.released + Holds(b.phase)
  {
  }

  lemma PermitsStep(cfg: Config, y: System, step: Step)
    requires PermitsAgree(cfg, y)
    ensures PermitsAgree(cfg, Next(cfg, y, step))
  {
    hide Act, Sum;
    var i := SlotOf(step);
    if i < |y.slots| {
      PermitsAct(cfg, At(y, i), step);
      var p := Act(cfg, At(y, i), step).phase;
      SumUpdate(y.slots, Holds, i, p);
      SumUpdate(y.slots, Inflight, i, p);
    }
  }

  lemma StatsAct(cfg: Config, a: Local, step: Step)
    ensures var b := Act(cfg, a, step);
            b.shared.requests + Uncounted(b.phase) + a.history.completedSize ==
            a.shared.requests + Uncounted(a.phase) + b.history.completedSize
  {
  }

  lemma StatsStep(cfg: Config, y: System, step: Step)
    requires StatsAgree(y)
    ensures StatsAgree(Next(cfg, y, step))
  {
    hide Act, Sum;
    var i := SlotOf(step);
    if i < |y.slots| {
      StatsAct(cfg, At(y, i), step);
      SumUpdate(y.slots, Uncounted, i, Act(cfg, At(y, i), step).phase);
    }
  }

  ghost function Places(a: Local): multiset<Ordered> {
    multiset(a.shared.queue.pending) + multiset(BatchOf(a.phase)) + a.history.finished + a.history.cleared
  }

  /** A section moves requests between the places its slot sees, or adds a new one. */
  lemma PlacesAct(cfg: Config, a: Local, step: Step)
    ensures var b := Act(cfg, a, step);
            b.history.added + Places(a) == a.history.added + Places(b)
  {
    match step {
      case Add(_, request) => PlacesAdd(cfg, a, step);
      case Drain(_) => PlacesDrain(cfg, a, step);
      case Release(_) => PlacesRelease(cfg, a, step);
      case Clear => PlacesRelease(cfg, a, step);
      case _ => PlacesQuiet(cfg, a, step);
    }
  }

  lemma PlacesAdd(cfg: Config, a: Local, step: Step)
    requires step.Add?
    ensures Act(cfg, a, step).history.added + Places(a) == a.history.added + Places(Act(cfg, a, step))
  {
    hide Insert;
    var q := a.shared.queue;
    InsertBag(Entry(q, step.request), q.pending);
  }

  lemma PlacesDrain(cfg: Config, a: Local, step: Step)
    requires step.Drain?
    ensures Act(cfg, a, step).history.added + Places(a) == a.history.added + Places(Act(cfg, a, step))
  {
    hide OldestOf;
    var q, n, b := a.shared.queue, Min(|a.shared.queue.pending|, cfg.maxBatchSize), Act(cfg, a, step);
    if a.phase == Permitted && q.pending != [] {
      assert b.shared.queue.pending == q.pending[n..] && BatchOf(b.phase) == q.pending[..n];
      SplitBag(q, n);
      hide Act;
      Regroup(multiset(q.pending[..n]), multiset(q.pending[n..]), a.history.finished, a.history.cleared);
    }
  }

  lemma Regroup(front: multiset<Ordered>, rest: multiset<Ordered>, f: multiset<Ordered>, c: multiset<Ordered>)
    ensures (front + rest) + multiset{} + f + c == rest + front + f + c
  {
  }

  lemma SplitBag(q: Queue, n: nat)
    requires n <= |q.pending|
    ensures multiset(q.pending) == multiset(q.pending[..n]) + multiset(q.pending[n..])
  {
    assert q.pending == q.pending[..n] + q.pending[n..];
  }

  lemma PlacesRelease(cfg: Config, a: Local, step: Step)
    requires step.Release? || step.Clear?
    ensures Act(cfg, a, step).history.added + Places(a) == a.history.added + Places(Act(cfg, a, step))
  {
  }

  lemma PlacesQuiet(cfg: Config, a: Local, step: Step)
    requires !step.Add? && !step.Drain? && !step.Release? && !step.Clear?
    ensures Act(cfg, a, step).history.added == a.history.added && Places(Act(cfg, a, step)) == Places(a)
  {
    hide ShouldForm;
  }

  lemma ConservedStep(cfg: Config, y: System, step: Step)
    requires Conserved(y)
    ensures Conserved(Next(cfg, y, step))
  {
    hide Act, Bag;
    var i, y' := SlotOf(step), Next(cfg, y, step);
    if i < |y.slots| {
      var a, b := At(y, i), Act(cfg, At(y, i), step);
      PlacesAct(cfg, a, step);
      BagUpdate(y.slots, i, b.phase);
      Rebalance(y, y', a, b);
    }
  }

  lemma Rebalance(y: System, y': System, a: Local, b: Local)
    requires Conserved(y) && a.shared == y.shared && a.history == y.history
    requires b.shared == y'.shared && b.history == y'.history
    requires b.history.added + Places(a) == a.history.added + Places(b)
    requires Bag(y'.slots) + multiset(BatchOf(a.phase)) == Bag(y.slots) + multiset(BatchOf(b.phase))
    ensures Conserved(y')
  {
    var all := multiset(y'.shared.queue.pending) + Bag(y'.slots) + y'.history.finished + y'.history.cleared;
    forall x ensures y'.history.added[x] == all[x] {
      assert (b.history.added + Places(a))[x] == (a.history.added + Places(b))[x];
      assert (Bag(y'.slots) + multiset(BatchOf(a.phase)))[x] == (Bag(y.slots) + multiset(BatchOf(b.phase)))[x];
    }
  }

  lemma TicketsAct(cfg: Config, a: Local, step: Step)
    requires TicketsUnique(a.shared, a.history)
    ensures TicketsUnique(Act(cfg, a, step).shared, Act(cfg, a, step).history)
  {
    hide Insert, OldestOf, ShouldForm, Front;
    if step.Add? {
      assert Entry(a.shared.queue, step.request) !in a.history.added;
    }
  }

  lemma OrderingAct(cfg: Config, a: Local, step: Step)
    requires Ordering(a.shared, a.history)
    ensures Ordering(Act(cfg, a, step).shared, Act(cfg, a, step).history)
  {
    hide Sound, NoOvertaking, Insert, OldestOf;
    var q, d, n := a.shared.queue, a.history.departed, Min(|a.shared.queue.pending|, cfg.maxBatchSize);
    match step {
      case Add(_, request) =>
        PushKeepsSound(q, request);
        PushKeepsFifo(d, q, request);
      case Drain(_) =>
        DrainKeepsSound(q, n);
        LeaveKeepsFifo(d, q, n, Drained(q, n));
      case Clear =>
        TailSound(q, 0);
        assert q.pending[..|q.pending|] == q.pending;
        LeaveKeepsFifo(d, q, |q.pending|, Emptied(q));
      case _ =>
    }
  }

  lemma SizesStep(cfg: Config, y: System, step: Step)
    requires SizesOk(cfg, y)
    ensures SizesOk(cfg, Next(cfg, y, step))
  {
  }

  lemma PeakAct(cfg: Config, a: Local, step: Step)
    requires a.shared.peak <= a.history.maxDepth && |a.shared.queue.pending| <= a.history.maxDepth
    requires CarriesAtMost(a.phase, a.history.maxDepth)
    ensures var b, m := Act(cfg, a, step), Act(cfg, a, step).history.maxDepth;
            a.history.maxDepth <= m && b.shared.peak <= m && |b.shared.queue.pending| <= m &&
            CarriesAtMost(b.phase, m) && a.shared.peak <= b.shared.peak &&
            (m != a.history.maxDepth ==> Carries(b.phase, m)) &&
            (Carries(a.phase, a.history.maxDepth) ==> Carries(b.phase, m) || b.shared.peak == m)
  {
  }

  lemma PeakStep(cfg: Config, y: System, step: Step)
    requires PeakAgrees(y)
    ensures PeakAgrees(Next(cfg, y, step))
  {
    hide Act, Carries, CarriesAtMost;
    var i, y' := SlotOf(step), Next(cfg, y, step);
    if i < |y.slots| {
      assert CarriesAtMost(y.slots[i], y.history.maxDepth);
      PeakAct(cfg, At(y, i), step);
      PeakRises(y, y', i);
    }
  }

  lemma PeakRises(y: System, y': System, i: nat)
    requires PeakAgrees(y) && i < |y.slots| == |y'.slots| && y'.slots == y.slots[i := y'.slots[i]]
    requires var m, m' := y.history.maxDepth, y'.history.maxDepth;
             m <= m' && y.shared.peak <= y'.shared.peak <= m' && |y'.shared.queue.pending| <= m' &&
             CarriesAtMost(y'.slots[i], m') && (m' != m ==> Carries(y'.slots[i], m')) &&
             (Carries(y.slots[i], m) ==> Carries(y'.slots[i], m') || y'.shared.peak == m')
    ensures PeakAgrees(y')
  {
    var m, m' := y.history.maxDepth, y'.history.maxDepth;
    forall j | 0 <= j < |y'.slots| ensures CarriesAtMost(y'.slots[j], m') {
      assert CarriesAtMost(y.slots[j], m);
    }
    if m' == m && y'.shared.peak != m' {
      var w :| 0 <= w < |y.slots| && Carries(y.slots[w], m);
      assert Carries(y'.slots[w], m');
    }
  }

  ghost predicate Invariant(cfg: Config, y: System) {
    PermitsAgree(cfg, y) && StatsAgree(y) && Conserved(y) && TicketsUnique(y.shared, y.history) &&
    Ordering(y.shared, y.history) && SizesOk(cfg, y) && PeakAgrees(y)
  }

  lemma StepInvariant(cfg: Config, y: System, step: Step)
    requires Invariant(cfg, y)
    ensures Invariant(cfg, Next(cfg, y, step))
  {
    hide PermitsAgree, StatsAgree, Conserved, TicketsUnique, Ordering, SizesOk, PeakAgrees, Act;
    PermitsStep(cfg, y, step);
    StatsStep(cfg, y, step);
    ConservedStep(cfg, y, step);
    SizesStep(cfg, y, step);
    PeakStep(cfg, y, step);
    if SlotOf(step) < |y.slots| {
      TicketsAct(cfg, At(y, SlotOf(step)), step);
      OrderingAct(cfg, At(y, SlotOf(step)), step);
    }
  }

  /** Every reachable state satisfies the whole invariant. */
  lemma {:induction false} RunInvariant(cfg: Config, slots: nat, steps: seq<Step>)
    ensures Invariant(cfg, Run(cfg, slots, steps))
  {
    hide Invariant, Next, Start;
    if steps == [] {
      StartInvariant(cfg, slots);
    } else {
      RunInvariant(cfg, slots, steps[..|steps| - 1]);
      StepInvariant(cfg, Run(cfg, slots, steps[..|steps| - 1]), steps[|steps| - 1]);
    }
  }

  lemma StartInvariant(cfg: Config, slots: nat)
    ensures Invariant(cfg, Start(cfg, slots))
  {
    AllIdle(Start(cfg, slots).slots);
  }

  // ---------------------------------------------------------------- what follows from it

  predicate AtRest(y: System) {
    forall i :: 0 <= i < |y.slots| ==> y.slots[i] == Idle
  }

  /** The batch limit: never more guards counted in flight than permits held, and never
      more permits held than there are. */
  lemma InflightBounded(cfg: Config, slots: nat, steps: seq<Step>)
    ensures var y := Run(cfg, slots, steps);
            y.shared.inflight <= Sum(y.slots, Holds) <= cfg.maxInflight
  {
    RunInvariant(cfg, slots, steps);
    SumBounds(Run(cfg, slots, steps).slots, Inflight, Holds);
  }

  /** When every call has returned and every guard is gone, whether completed or dropped:
      all permits are back, each was given back once, and the counters have settled. */
  lemma RestRestoresEverything(cfg: Config, slots: nat, steps: seq<Step>)
    requires AtRest(Run(cfg, slots, steps))
    ensures var y := Run(cfg, slots, steps);
            y.shared.permits == cfg.maxInflight && y.history.released == y.history.granted && y.shared.inflight == 0 &&
            y.shared.requests == y.history.completedSize && y.shared.peak == y.history.maxDepth &&
            y.history.added == multiset(y.shared.queue.pending) + y.history.finished + y.history.cleared
  {
    hide Run, Sum, Bag, Ordering, TicketsUnique, Carries;
    var y := Run(cfg, slots, steps);
    RunInvariant(cfg, slots, steps);
    AllIdle(y.slots);
    IdleCarriesNothing(y);
  }

  lemma IdleCarriesNothing(y: System)
    requires AtRest(y)
    ensures forall i, n :: 0 <= i < |y.slots| ==> !Carries(y.slots[i], n)
  {
  }

  /** Between the peek and the drain the queue may shrink or grow, yet every batch formed
      has at least one request and at most the configured number. */
  lemma {:induction false} BatchSizes(cfg: Config, slots: nat, steps: seq<Step>, i: nat)
    requires i < |Run(cfg, slots, steps).slots| && Inflight(Run(cfg, slots, steps).slots[i]) == 1
    requires cfg.maxBatchSize >= 1
    ensures 1 <= |BatchOf(Run(cfg, slots, steps).slots[i])| <= cfg.maxBatchSize
  {
    RunInvariant(cfg, slots, steps);
    assert SizeOk(cfg, Run(cfg, slots, steps).slots[i]);
  }

  /** Run without interruption, the sections of a call do what the call does. */
  lemma SectionsMakeCalls(cfg: Config, s: Shared, h: History, request: Request, now: nat)
    ensures var b := Act(cfg, Act(cfg, Act(cfg, Local(s, Idle, h), Add(0, request)), StoreDepth(0)), RaisePeak(0));
            var pushed := PushSection(s, request);
            b.phase == Idle &&
            b.shared == PeakSection(DepthSection(pushed, |pushed.queue.pending|), |pushed.queue.pending|)
    ensures var b := Act(cfg, Act(cfg, Act(cfg, Local(s, Idle, h), Peek(0, now)), TryPermit(0)), Drain(0));
            if ShouldForm(cfg, s.queue, now) && s.permits > 0
            then b.shared == DrainSection(cfg, TakePermit(s)) && b.phase == Live(TakenBatch(cfg, s))
            else b.shared == s && b.phase == Idle
  {
    hide PushSection, DrainSection;
  }

  /** In every interleaving, a drain takes the pending requests of highest priority, first
      come first among equals, and as many as fit. */
  lemma DrainTakesHighest(cfg: Config, slots: nat, steps: seq<Step>, i: nat)
    requires var y := Run(cfg, slots, steps);
             i < |y.slots| && y.slots[i] == Permitted && y.shared.queue.pending != []
    ensures var y, y' := Run(cfg, slots, steps), Next(cfg, Run(cfg, slots, steps), Drain(i));
            i < |y'.slots| && y'.slots[i].Live? &&
            multiset(y.shared.queue.pending) == multiset(y'.slots[i].batch) + multiset(y'.shared.queue.pending) &&
            (|y'.slots[i].batch| == cfg.maxBatchSize || y'.shared.queue.pending == []) &&
            forall x, z :: x in y'.slots[i].batch && z in y'.shared.queue.pending ==>
              x.request.priority > z.request.priority ||
              (x.request.priority == z.request.priority && x.ticket < z.ticket)
  {
    RunInvariant(cfg, slots, steps);
    hide Run, Invariant;
    var y := Run(cfg, slots, steps);
    InvariantOrders(cfg, y);
    DrainActHighest(cfg, At(y, i), i);
  }

  lemma InvariantOrders(cfg: Config, y: System)
    requires Invariant(cfg, y)
    ensures Sound(y.shared.queue)
  {
  }

  lemma DrainActHighest(cfg: Config, a: Local, i: nat)
    requires Sound(a.shared.queue) && a.phase == Permitted && a.shared.queue.pending != []
    ensures var b := Act(cfg, a, Drain(i));
            b.phase.Live? &&
            multiset(a.shared.queue.pending) == multiset(b.phase.batch) + multiset(b.shared.queue.pending) &&
            (|b.phase.batch| == cfg.maxBatchSize || b.shared.queue.pending == []) &&
            forall x, z :: x in b.phase.batch && z in b.shared.queue.pending ==>
              x.request.priority > z.request.priority ||
              (x.request.priority == z.request.priority && x.ticket < z.ticket)
  {
    hide Sound, OldestOf;
    var q := a.shared.queue;
    HighestLeaveFirst(q, cfg.maxBatchSize);
    DrainSizes(q, cfg.maxBatchSize);
    SplitBag(q, Min(|q.pending|, cfg.maxBatchSize));
  }

  lemma {:induction false} BatchInBag(slots: seq<Phase>, i: nat)
    requires i < |slots|
    ensures multiset(BatchOf(slots[i])) <= Bag(slots)
  {
    if i > 0 { BatchInBag(slots[1..], i - 1); }
  }

  lemma {:induction false} TwoBatchesInBag(slots: seq<Phase>, i: nat, j: nat)
    requires i < j < |slots|
    ensures multiset(BatchOf(slots[i])) + multiset(BatchOf(slots[j])) <= Bag(slots)
  {
    hide BatchOf;
    if i > 0 {
      TwoBatchesInBag(slots[1..], i - 1, j - 1);
      assert Bag(slots[1..]) <= Bag(slots);
    } else {
      BatchInBag(slots[1..], j - 1);
    }
  }

  /** No request is in two batches, nor both in a batch and still pending, finished or cleared. */
  lemma NoRequestTwice(cfg: Config, slots: nat, steps: seq<Step>, i: nat, x: Ordered)
    requires i < |Run(cfg, slots, steps).slots| && x in BatchOf(Run(cfg, slots, steps).slots[i])
    ensures var y := Run(cfg, slots, steps);
            x !in y.shared.queue.pending && x !in y.history.finished && x !in y.history.cleared &&
            multiset(BatchOf(y.slots[i]))[x] == 1 &&
            forall j :: 0 <= j < |y.slots| && j != i ==> x !in BatchOf(y.slots[j])
  {
    var y := Run(cfg, slots, steps);
    RunInvariant(cfg, slots, steps);
    BatchInBag(y.slots, i);
    assert x in multiset(BatchOf(y.slots[i]));
    assert y.history.added[x] >= Bag(y.slots)[x] >= 1;
    assert y.history.added[x] == 1;
    forall j | 0 <= j < |y.slots| && j != i ensures x !in BatchOf(y.slots[j]) {
      TwoBatchesInBag(y.slots, if i < j then i else j, if i < j then j else i);
      assert multiset(BatchOf(y.slots[i]))[x] + multiset(BatchOf(y.slots[j]))[x] <= Bag(y.slots)[x];
    }
  }

}
