/** The request queue of src/inflight_batch.rs and src/batch.rs: a binary heap with a
    ticket counter and a cached oldest enqueue time. `Queue` is what the struct means:
    the heap read as one ranked list. */
module PriorityQueues {
  import opened Wrappers
  import opened PriorityOrder

  datatype Queue = Queue(pending: seq<Ordered>, nextTicket: nat, oldest: Option<nat>)

  const EMPTY := Queue([], 0, None)

  function Entry(q: Queue, request: Request): Ordered {
    Ordered(request.priority, q.nextTicket, request)
  }

  function Earlier(oldest: Option<nat>, ts: nat): Option<nat> {
    if oldest.Some? && oldest.value <= ts then oldest else Some(ts)
  }

  function Pushed(q: Queue, request: Request): Queue {
    Queue(Insert(Entry(q, request), q.pending), q.nextTicket + 1, Earlier(q.oldest, request.timestamp))
  }

  function Min(a: nat, b: nat): nat { if a <= b then a else b }

  /** The first `max` entries in drain order, or all of them. */
  function Front(q: Queue, max: nat): seq<Ordered> {
    q.pending[..Min(max, |q.pending|)]
  }

  function Drained(q: Queue, max: nat): Queue {
    var rest := q.pending[Min(max, |q.pending|)..];
    Queue(rest, q.nextTicket, OldestOf(rest))
  }

  function Emptied(q: Queue): Queue {
    Queue([], q.nextTicket, None)
  }

  function OldestOf(s: seq<Ordered>): Option<nat> {
    if s == [] then None else Earlier(OldestOf(s[1..]), s[0].request.timestamp)
  }

  lemma {:induction false} OldestOfIsOldest(s: seq<Ordered>)
    ensures IsOldest(OldestOf(s), s)
  {
    if s != [] {
      OldestOfIsOldest(s[1..]);
      assert s == [s[0]] + s[1..];
      if OldestOf(s[1..]) == OldestOf(s) {
        var x :| x in s[1..] && x.request.timestamp == OldestOf(s).value;
        assert x in s;
      }
    }
  }

  function Requests(s: seq<Ordered>): seq<Request> {
    if s == [] then [] else [s[0].request] + Requests(s[1..])
  }

  lemma {:induction false} RequestsSnoc(s: seq<Ordered>, x: Ordered)
    ensures Requests(s + [x]) == Requests(s) + [x.request]
  {
    if s == [] {
      assert s + [x] == [x];
    } else {
      RequestsSnoc(s[1..], x);
      assert (s + [x])[1..] == s[1..] + [x];
    }
  }

  lemma SameSize(s: seq<Ordered>, t: seq<Ordered>)
    requires Arranges(s, t)
    ensures |s| == |t|
  {
    assert |multiset(s)| == |s| && |multiset(t)| == |t|;
  }

  /** Moving one entry from the rest of a drained list to the result. */
  lemma StepAcross(s: seq<Ordered>, n: nat, x: Ordered, rest: seq<Ordered>)
    requires n <= |s| && s[n..] == [x] + rest
    ensures n < |s| && rest == s[n + 1..]
    ensures Requests(s[..n + 1]) == Requests(s[..n]) + [x.request]
  {
    assert |s[n..]| == |s| - n >= 1;
    assert s[n] == s[n..][0] == x;
    assert rest == s[n..][1..];
    assert s[..n + 1] == s[..n] + [x];
    RequestsSnoc(s[..n], x);
  }

  /** `o` is the minimum of the enqueue times in `s`, `None` for no entries. */
  ghost predicate IsOldest(o: Option<nat>, s: seq<Ordered>) {
    match o
    case None => s == []
    case Some(t) =>
      (exists x :: x in s && x.request.timestamp == t) &&
      (forall x :: x in s ==> t <= x.request.timestamp)
  }

  /** The minimum found over the heap's layout is the minimum of the ranked list. */
  lemma OldestIgnoresOrder(o: Option<nat>, s: seq<Ordered>, t: seq<Ordered>)
    requires Arranges(s, t) && IsOldest(o, s)
    ensures OldestOf(t) == o
  {
    OldestOfIsOldest(t);
    forall x ensures x in s <==> x in t { InBag(s, t, x); }
    assert t != [] ==> t[0] in s;
    if o.Some? {
      var x :| x in s && x.request.timestamp == o.value;
      assert x in t;
    }
  }

  /** `heap` is a heap layout of the ranked list `pending`. */
  ghost predicate Arranges(heap: seq<Ordered>, pending: seq<Ordered>) {
    IsHeap(heap) && multiset(heap) == multiset(pending)
  }

  /** What every queue operation keeps. */
  ghost predicate Sound(q: Queue) {
    Ranked(q.pending) && Distinct(multiset(q.pending)) && IsOldest(q.oldest, q.pending) &&
    (forall x :: x in q.pending ==> x.ticket < q.nextTicket && x.priority == x.request.priority)
  }

  lemma PushKeepsSound(q: Queue, request: Request)
    requires Sound(q)
    ensures Sound(Pushed(q, request))
  {
    var x := Entry(q, request);
    var p := Insert(x, q.pending);
    InsertRanked(x, q.pending);
    InsertBag(x, q.pending);
    assert x in p;
    if q.oldest.Some? {
      var w :| w in q.pending && w.request.timestamp == q.oldest.value;
      assert w in p;
    }
    FreshDistinct(q.pending, x, p);
  }

  lemma FreshDistinct(s: seq<Ordered>, x: Ordered, p: seq<Ordered>)
    requires Distinct(multiset(s)) && multiset(p) == multiset(s) + multiset{x}
    requires forall y :: y in s ==> y.ticket != x.ticket
    ensures Distinct(multiset(p))
  {
    assert x !in s && multiset(s)[x] == 0;
    forall y | y in multiset(p) ensures multiset(p)[y] == 1 && (y == x || y in s) {
      assert y == x || y in multiset(s);
    }
  }

  lemma SliceDistinct(s: seq<Ordered>, n: nat)
    requires Distinct(multiset(s)) && n <= |s|
    ensures Distinct(multiset(s[n..]))
  {
    assert s == s[..n] + s[n..];
    forall x | x in multiset(s[n..]) ensures x in multiset(s) && multiset(s[n..])[x] == 1 {
      assert multiset(s)[x] == multiset(s[..n])[x] + multiset(s[n..])[x];
    }
  }

  lemma DrainKeepsSound(q: Queue, max: nat)
    requires Sound(q)
    ensures Sound(Drained(q, max))
  {
    var n := Min(max, |q.pending|);
    SliceDistinct(q.pending, n);
    OldestOfIsOldest(q.pending[n..]);
  }

  lemma TailSound(q: Queue, n: nat)
    requires Sound(q) && n <= |q.pending|
    ensures Ranked(q.pending[n..]) && Distinct(multiset(q.pending[n..])) && Sound(Emptied(q))
    ensures Requests(q.pending[..0]) == []
  {
    SliceDistinct(q.pending, n);
  }

  // ---------------------------------------------------------------- whole runs

  datatype Op = Push(request: Request) | DrainUpTo(max: nat) | DrainAll

  /** A queue together with everything that has left it, in order of leaving. */
  datatype Run = Run(queue: Queue, departed: seq<Ordered>)

  function Do(r: Run, op: Op): Run {
    match op
    case Push(request) => r.(queue := Pushed(r.queue, request))
    case DrainUpTo(max) => Run(Drained(r.queue, max), r.departed + Front(r.queue, max))
    case DrainAll => Run(Emptied(r.queue), r.departed + r.queue.pending)
  }

  function DoAll(ops: seq<Op>): Run {
    if ops == [] then Run(EMPTY, []) else Do(DoAll(ops[..|ops| - 1]), ops[|ops| - 1])
  }

  /** Among entries of equal priority, the earlier one is listed earlier. */
  ghost predicate Fifo(s: seq<Ordered>) {
    forall i, j :: 0 <= i < j < |s| && s[i].priority == s[j].priority ==> s[i].ticket < s[j].ticket
  }

  /** Nothing pending was queued before an equal-priority entry that already left. */
  ghost predicate NoOvertaking(departed: seq<Ordered>, q: Queue) {
    Fifo(departed) &&
    (forall x :: x in departed ==> x.ticket < q.nextTicket) &&
    (forall x, y :: x in departed && y in q.pending && x.priority == y.priority ==> x.ticket < y.ticket)
  }

  lemma PushKeepsFifo(departed: seq<Ordered>, q: Queue, request: Request)
    requires NoOvertaking(departed, q)
    ensures NoOvertaking(departed, Pushed(q, request))
  {
    InsertBag(Entry(q, request), q.pending);
  }

  /** Any number of entries leaving from the front keeps per-priority order. */
  lemma LeaveKeepsFifo(departed: seq<Ordered>, q: Queue, n: nat, q': Queue)
    requires Sound(q) && NoOvertaking(departed, q) && n <= |q.pending|
    requires q'.pending == q.pending[n..] && q'.nextTicket == q.nextTicket
    ensures NoOvertaking(departed + q.pending[..n], q')
  {
    hide Distinct, IsOldest;
    FrontIsFifo(departed, q, n);
    FrontBeatsRest(q.pending, n);
    forall y | y in q'.pending ensures y in q.pending { }
  }

  lemma FrontBeatsRest(s: seq<Ordered>, n: nat)
    requires Ranked(s) && n <= |s|
    ensures forall x, y :: x in s[..n] && y in s[n..] ==> Beats(x, y)
  {
    forall x, y | x in s[..n] && y in s[n..] ensures Beats(x, y) {
      var i :| 0 <= i < n && s[..n][i] == x;
      var j :| 0 <= j < |s| - n && s[n..][j] == y;
      assert Beats(s[i], s[n + j]);
    }
  }

  lemma FrontIsFifo(departed: seq<Ordered>, q: Queue, n: nat)
    requires Ranked(q.pending) && NoOvertaking(departed, q) && n <= |q.pending|
    ensures Fifo(departed + q.pending[..n])
  {
    var d := departed + q.pending[..n];
    forall i, j | 0 <= i < j < |d| && d[i].priority == d[j].priority ensures d[i].ticket < d[j].ticket {
      if i >= |departed| {
        assert Beats(q.pending[i - |departed|], q.pending[j - |departed|]);
      } else if j >= |departed| {
        assert d[j] in q.pending && d[i] in departed;
      }
    }
  }

  /** Over every sequence of operations: the cached time is the minimum, the pending
      list is ranked, and equal-priority requests leave in the order they came. */
  lemma {:induction false} RunInvariant(ops: seq<Op>)
    ensures Sound(DoAll(ops).queue)
    ensures NoOvertaking(DoAll(ops).departed, DoAll(ops).queue)
  {
    if ops != [] {
      var prev := DoAll(ops[..|ops| - 1]);
      var op := ops[|ops| - 1];
      RunInvariant(ops[..|ops| - 1]);
      match op {
        case Push(request) =>
          PushKeepsSound(prev.queue, request);
          PushKeepsFifo(prev.departed, prev.queue, request);
        case DrainUpTo(max) =>
          DrainKeepsSound(prev.queue, max);
          LeaveKeepsFifo(prev.departed, prev.queue, Min(max, |prev.queue.pending|), Drained(prev.queue, max));
        case DrainAll =>
          var n := |prev.queue.pending|;
          assert prev.queue.pending[..n] == prev.queue.pending;
          LeaveKeepsFifo(prev.departed, prev.queue, n, Emptied(prev.queue));
      }
    }
  }

  /** The requests pushed, in order. */
  function Arrivals(ops: seq<Op>): seq<Request> {
    if ops == [] then []
    else
      var before, op := Arrivals(ops[..|ops| - 1]), ops[|ops| - 1];
      if op.Push? then before + [op.request] else before
  }

  /** Over every sequence of operations a ticket is the place among the arrivals, so lower
      tickets are earlier requests. */
  lemma {:induction false} TicketsNameArrivals(ops: seq<Op>)
    ensures var r, a := DoAll(ops), Arrivals(ops);
            r.queue.nextTicket == |a| &&
            forall x :: x in r.queue.pending || x in r.departed ==> x.ticket < |a| && a[x.ticket] == x.request
  {
    hide Insert, OldestOf;
    if ops != [] {
      var prev, op := DoAll(ops[..|ops| - 1]), ops[|ops| - 1];
      TicketsNameArrivals(ops[..|ops| - 1]);
      if op.Push? { InsertBag(Entry(prev.queue, op.request), prev.queue.pending); }
    }
  }

  /** A push adds the one request under the next ticket. */
  lemma PushAddsOne(q: Queue, request: Request)
    ensures multiset(Pushed(q, request).pending) ==
      multiset(q.pending) + multiset{Ordered(request.priority, q.nextTicket, request)}
    ensures |Pushed(q, request).pending| == |q.pending| + 1
  {
    InsertBag(Entry(q, request), q.pending);
    var p := Pushed(q, request).pending;
    assert |multiset(p)| == |p| && |multiset(q.pending)| == |q.pending|;
  }

  // ---------------------------------------------------------------- who leaves first

  /** In the requests' own terms: whatever leaves has at least the priority of whatever
      stays, and came earlier among equals; the same holds within what leaves. */
  lemma HighestLeaveFirst(q: Queue, max: nat)
    requires Sound(q)
    ensures forall x, y :: x in Front(q, max) && y in Drained(q, max).pending ==>
      x.request.priority > y.request.priority || (x.request.priority == y.request.priority && x.ticket < y.ticket)
    ensures var f := Front(q, max);
            forall i, j :: 0 <= i < j < |f| ==>
              f[i].request.priority > f[j].request.priority ||
              (f[i].request.priority == f[j].request.priority && f[i].ticket < f[j].ticket)
  {
    var n := Min(max, |q.pending|);
    FrontBeatsRest(q.pending, n);
    forall x | x in q.pending[..n] || x in q.pending[n..] ensures x.priority == x.request.priority { }
    var f := Front(q, max);
    forall i, j | 0 <= i < j < |f|
      ensures f[i].request.priority > f[j].request.priority ||
              (f[i].request.priority == f[j].request.priority && f[i].ticket < f[j].ticket)
    {
      assert Beats(q.pending[i], q.pending[j]);
      assert f[i] in q.pending && f[j] in q.pending;
    }
  }

  /** The same of the requests handed over: no fewer than asked for if there are as many, by
      descending priority, none below what is left. */
  lemma HighestRequestsFirst(q: Queue, max: nat)
    requires Sound(q)
    ensures var r := Requests(Front(q, max));
            |r| == (if |q.pending| <= max then |q.pending| else max) &&
            (forall i, j :: 0 <= i < j < |r| ==> r[i].priority >= r[j].priority) &&
            forall i, y :: 0 <= i < |r| && y in Drained(q, max).pending ==> r[i].priority >= y.request.priority
  {
    HighestLeaveFirst(q, max);
    RequestsAt(Front(q, max));
    hide Requests, Sound, Drained, Front;
    var f, r := Front(q, max), Requests(Front(q, max));
    FrontSize(q, max);
    forall i, j | 0 <= i < j < |r| ensures r[i].priority >= r[j].priority {
      assert r[i] == f[i].request && r[j] == f[j].request;
    }
    forall i, y | 0 <= i < |r| && y in Drained(q, max).pending ensures r[i].priority >= y.request.priority {
      assert r[i] == f[i].request && f[i] in f;
    }
  }

  lemma FrontSize(q: Queue, max: nat)
    ensures |Front(q, max)| == if |q.pending| <= max then |q.pending| else max
  {
  }

  lemma {:induction false} RequestsAt(s: seq<Ordered>)
    ensures |Requests(s)| == |s| && forall i :: 0 <= i < |s| ==> Requests(s)[i] == s[i].request
  {
    if s != [] { RequestsAt(s[1..]); }
  }

  /** The wait of a request: from its enqueue instant, zero if the clock reads earlier. */
  lemma WaitMeans(now: nat, t: nat)
    ensures t <= now ==> t + Since(now, t) == now
    ensures t > now ==> Since(now, t) == 0
  {
  }

  // ------------------------------------------------------- batches without arrivals

  /** A list cut into pieces of `max`, the last one possibly shorter. */
  function Chunks(s: seq<Ordered>, max: nat): seq<seq<Ordered>>
    requires max >= 1
  {
    if s == [] then [] else [s[..Min(max, |s|)]] + Chunks(s[Min(max, |s|)..], max)
  }

  /** The batches that successive drains of size `max` produce when nothing arrives. */
  function Batches(q: Queue, max: nat): seq<seq<Ordered>>
    requires max >= 1
    decreases |q.pending|
  {
    if q.pending == [] then [] else [Front(q, max)] + Batches(Drained(q, max), max)
  }

  function Flatten(b: seq<seq<Ordered>>): seq<Ordered> {
    if b == [] then [] else b[0] + Flatten(b[1..])
  }

  /** Successive batches are the ranked list cut into pieces. */
  lemma {:induction false} BatchesAreChunks(q: Queue, max: nat)
    requires max >= 1
    ensures Batches(q, max) == Chunks(q.pending, max)
    decreases |q.pending|
  {
    if q.pending != [] {
      BatchesAreChunks(Drained(q, max), max);
    }
  }

  /** Successive batches concatenate to the ranked list. */
  lemma {:induction false} BatchesConcatenate(q: Queue, max: nat)
    requires max >= 1
    ensures Flatten(Batches(q, max)) == q.pending
    decreases |q.pending|
  {
    if q.pending != [] {
      BatchesConcatenate(Drained(q, max), max);
      var b := Batches(q, max);
      assert b[1..] == Batches(Drained(q, max), max);
      assert q.pending == Front(q, max) + Drained(q, max).pending;
    }
  }

  lemma {:induction false} ChunkOfPosition(s: seq<Ordered>, max: nat, k: nat, r: nat)
    requires max >= 1 && r < |s| && k * max <= r < (k + 1) * max
    ensures k < |Chunks(s, max)| && s[r] in Chunks(s, max)[k] && |Chunks(s, max)[k]| <= max
    decreases k
  {
    if k > 0 {
      OneChunkLess(k, max);
      ChunkOfPosition(s[max..], max, k - 1, r - max);
      assert s[max..][r - max] == s[r];
    }
  }

  lemma OneChunkLess(k: nat, max: nat)
    requires k >= 1
    ensures k * max == (k - 1) * max + max && (k - 1) * max >= 0
  {
  }

  lemma Quotient(r: nat, max: nat) returns (k: nat)
    requires max >= 1
    ensures k == r / max && k * max <= r < (k + 1) * max
  {
    assert r / max >= 0;
    k := r / max;
    assert r == k * max + r % max;
  }

  /** The pending entries that leave before `x`. */
  ghost function Ahead(q: Queue, x: Ordered): set<Ordered> {
    set y | y in q.pending && Beats(y, x)
  }

  lemma {:induction false} RankedCount(s: seq<Ordered>)
    requires Ranked(s)
    ensures |set y | y in s| == |s|
  {
    if s != [] {
      var t := s[..|s| - 1];
      RankedCount(t);
      assert s == t + [s[|s| - 1]];
      assert (set y | y in s) == (set y | y in t) + {s[|s| - 1]};
    }
  }

  lemma AheadIsPosition(q: Queue, p: nat)
    requires Ranked(q.pending) && p < |q.pending|
    ensures |Ahead(q, q.pending[p])| == p
  {
    var x := q.pending[p];
    RankIsPosition(q.pending, p);
    RankedCount(q.pending[..p]);
    assert Ahead(q, x) == set y | y in q.pending[..p];
  }

  /** A pending request with exactly `r` entries ahead of it leaves in batch `r / max`. */
  lemma RankDecidesBatch(q: Queue, max: nat, x: Ordered, r: nat)
    requires Ranked(q.pending) && max >= 1 && x in q.pending && r == |Ahead(q, x)|
    ensures r / max < |Batches(q, max)| && x in Batches(q, max)[r / max]
  {
    var p :| 0 <= p < |q.pending| && q.pending[p] == x;
    AheadIsPosition(q, p);
    BatchesAreChunks(q, max);
    var k := Quotient(p, max);
    ChunkOfPosition(q.pending, max, k, p);
  }

  // ---------------------------------------------------------------- the struct

  class PriorityQueue {
    var heap: seq<Ordered>
    var nextTicket: nat
    var oldestEnqueue: Option<nat>
    /** The heap's entries in the one ranked order they have. */
    ghost var pending: seq<Ordered>

    ghost function View(): Queue
      reads this
    {
      Queue(pending, nextTicket, oldestEnqueue)
    }

    ghost predicate Valid()
      reads this
    {
      Arranges(heap, pending) && Sound(View())
    }

    constructor ()
      ensures Valid() && View() == EMPTY
    {
      heap := [];
      nextTicket := 0;
      oldestEnqueue := None;
      pending := [];
    }

    method Push(request: Request)
      requires Valid()
      modifies this
      ensures Valid() && View() == Pushed(old(View()), request)
    {
      hide Sound, Arranges, Insert, Ranked, Distinct, IsOldest, Beats;
      ghost var q := View();
      PushKeepsSound(q, request);
      var ts := request.timestamp;
      var ticket := nextTicket;
      nextTicket := nextTicket + 1;
      var x := Ordered(request.priority, ticket, request);
      Enter(x);
      if oldestEnqueue.Some? && oldestEnqueue.value <= ts {
      } else {
        oldestEnqueue := Some(ts);
      }
    }

    /** One `heap.push()`. */
    method Enter(x: Ordered)
      requires Arranges(heap, pending)
      modifies this`heap, this`pending
      ensures Arranges(heap, pending) && pending == Insert(x, old(pending))
    {
      heap := HeapPush(heap, x);
      InsertBag(x, pending);
      pending := Insert(x, pending);
    }

    /** One `heap.pop()`, which leaves the cached time for the caller to refresh. */
    method Pop() returns (item: Ordered)
      requires Arranges(heap, pending) && heap != []
      requires Ranked(pending) && Distinct(multiset(pending))
      modifies this`heap, this`pending
      ensures Arranges(heap, pending)
      ensures old(pending) == [item] + pending
    {
      ghost var before := heap;
      item, heap := HeapPop(heap);
      PopIsHead(before, pending, item, heap);
      pending := pending[1..];
    }

    method DrainAll() returns (requests: seq<Request>)
      requires Valid()
      modifies this
      ensures Valid() && View() == Emptied(old(View()))
      ensures requests == Requests(old(View()).pending)
    {
      hide Sound, Ranked, Distinct, Arranges, IsOldest, Requests;
      TailSound(View(), 0);
      requests := PopAll();
      oldestEnqueue := None;
    }

    /** The pops of `DrainAll`. */
    method PopAll() returns (requests: seq<Request>)
      requires Valid()
      modifies this`heap, this`pending
      ensures Arranges(heap, pending) && pending == []
      ensures requests == Requests(old(pending))
    {
      hide Sound, Ranked, Distinct, Arranges, IsOldest, Requests;
      requests := [];
      ghost var q := View();
      ghost var n := 0;
      TailSound(q, 0);
      while heap != []
        invariant Arranges(heap, pending)
        invariant n <= |q.pending| && pending == q.pending[n..]
        invariant requests == Requests(q.pending[..n])
        decreases |q.pending| - n
      {
        TailSound(q, n);
        var item := Pop();
        requests := requests + [item.request];
        StepAcross(q.pending, n, item, pending);
        n := n + 1;
      }
      SameSize(heap, pending);
      assert q.pending[..n] == q.pending;
    }

    method DrainUpTo(max: nat) returns (requests: seq<Request>)
      requires Valid()
      modifies this
      ensures Valid() && View() == Drained(old(View()), max)
      ensures requests == Requests(Front(old(View()), max))
    {
      hide Sound, Ranked, Distinct, Arranges, IsOldest, OldestOf, Requests;
      DrainKeepsSound(View(), max);
      requests := PopUpTo(max);
      oldestEnqueue := ScanOldest();
      OldestIgnoresOrder(oldestEnqueue, heap, pending);
    }

    /** The pops of `DrainUpTo`, before it refreshes the cached time. */
    method PopUpTo(max: nat) returns (requests: seq<Request>)
      requires Valid()
      modifies this`heap, this`pending
      ensures Arranges(heap, pending)
      ensures pending == Drained(old(View()), max).pending
      ensures requests == Requests(Front(old(View()), max))
    {
      hide Sound, Ranked, Distinct, Arranges, IsOldest, OldestOf, Requests;
      requests := [];
      ghost var q := View();
      var n := 0;
      TailSound(q, 0);
      while n < max && heap != []
        invariant Arranges(heap, pending)
        invariant n <= max && n <= |q.pending| && pending == q.pending[n..]
        invariant requests == Requests(q.pending[..n])
        decreases max - n
      {
        TailSound(q, n);
        var item := Pop();
        requests := requests + [item.request];
        StepAcross(q.pending, n, item, pending);
        n := n + 1;
      }
      SameSize(heap, pending);
    }

    /** The O(n) scan that recomputes the oldest enqueue time. */
    method ScanOldest() returns (o: Option<nat>)
      ensures IsOldest(o, heap)
    {
      o := None;
      for i := 0 to |heap|
        invariant IsOldest(o, heap[..i])
      {
        assert heap[..i + 1] == heap[..i] + [heap[i]];
        if o.None? || heap[i].request.timestamp < o.value {
          o := Some(heap[i].request.timestamp);
        }
      }
      assert heap[..|heap|] == heap;
    }

    method Clear()
      requires Valid()
      modifies this
      ensures Valid() && View() == Emptied(old(View()))
    {
      heap := [];
      pending := [];
      oldestEnqueue := None;
    }

    method Len() returns (n: nat)
      requires Valid()
      ensures n == |View().pending|
    {
      SameSize(heap, pending);
      n := |heap|;
    }

    /** Elapsed time since the oldest enqueue; a clock that reads earlier counts as zero. */
    method OldestAge(now: nat) returns (age: Option<nat>)
      requires Valid()
      ensures age.None? <==> View().pending == []
      ensures age.Some? ==>
        (exists x :: x in View().pending && age.value == Since(now, x.request.timestamp)) &&
        (forall x :: x in View().pending ==> Since(now, x.request.timestamp) <= age.value)
    {
      age := if oldestEnqueue.None? then None else Some(Since(now, oldestEnqueue.value));
      if age.Some? {
        ghost var w :| w in View().pending && w.request.timestamp == oldestEnqueue.value;
        assert age.value == Since(now, w.request.timestamp);
      }
    }
  }

  function Since(now: nat, t: nat): nat { if now >= t then now - t else 0 }
}
