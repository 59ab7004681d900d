/** src/model_pool.rs: least-loaded routing and the integer moving average behind it. */
module ModelPools {
  import opened Wrappers

  datatype Metrics = Metrics(active: nat, total: nat, avgLatency: nat)

  const WEIGHT: nat := 500
  const TWO_64: nat := 0x1_0000_0000_0000_0000

  function LoadScore(m: Metrics): nat { m.active * WEIGHT + m.avgLatency }

  function Started(m: Metrics): Metrics { m.(active := m.active + 1, total := m.total + 1) }

  /** The truncating average; a zero average counts as no average. */
  function NewAverage(current: nat, latency: nat): nat {
    if current == 0 then latency else (current * 9 + latency) / 10
  }

  /** The counter is unsigned: ending a request that never started wraps. */
  function Ended(m: Metrics, latency: nat): Metrics {
    m.(active := if m.active > 0 then m.active - 1 else TWO_64 - 1, avgLatency := NewAverage(m.avgLatency, latency))
  }

  // ---------------------------------------------------------------- routing

  /** The first instance of least score. */
  function LeastLoaded(s: seq<Metrics>): (i: nat)
    requires s != []
    ensures i < |s|
    ensures forall j :: 0 <= j < |s| ==>
      500 * s[i].active + s[i].avgLatency <= 500 * s[j].active + s[j].avgLatency
    ensures forall j :: 0 <= j < i ==> 500 * s[i].active + s[i].avgLatency < 500 * s[j].active + s[j].avgLatency
  {
    if |s| == 1 then 0
    else
      var k := LeastLoaded(s[..|s| - 1]);
      if LoadScore(s[|s| - 1]) < LoadScore(s[k]) then |s| - 1 else k
  }

  function Route(s: seq<Metrics>): seq<Metrics> {
    if s == [] then s else s[LeastLoaded(s) := Started(s[LeastLoaded(s)])]
  }

  function RouteMany(s: seq<Metrics>, k: nat): seq<Metrics> {
    if k == 0 then s else Route(RouteMany(s, k - 1))
  }

  function TotalActive(s: seq<Metrics>): nat {
    if s == [] then 0 else s[0].active + TotalActive(s[1..])
  }

  lemma {:induction false} TotalUpdate(s: seq<Metrics>, i: nat, m: Metrics)
    requires i < |s|
    ensures TotalActive(s[i := m]) + s[i].active == TotalActive(s) + m.active
  {
    if i > 0 {
      TotalUpdate(s[1..], i - 1, m);
      assert s[i := m][1..] == s[1..][i - 1 := m];
    } else {
      assert s[i := m][1..] == s[1..];
    }
  }

  /** Started from `s`, every instance used since scores at most one request above every
      other, and only active counts moved. */
  ghost predicate Balanced(s: seq<Metrics>, r: seq<Metrics>) {
    |r| == |s| &&
    (forall i :: 0 <= i < |s| ==> r[i].active >= s[i].active && r[i].avgLatency == s[i].avgLatency) &&
    forall i, j :: 0 <= i < |s| && 0 <= j < |s| && r[i].active > s[i].active ==>
      500 * r[i].active + r[i].avgLatency <= 500 * r[j].active + r[j].avgLatency + 500
  }

  lemma RouteKeepsBalanced(s: seq<Metrics>, r: seq<Metrics>)
    requires r != [] && Balanced(s, r)
    ensures Balanced(s, Route(r)) && TotalActive(Route(r)) == TotalActive(r) + 1
  {
    TotalUpdate(r, LeastLoaded(r), Started(r[LeastLoaded(r)]));
  }

  /** After any number of acquires without releases the instances are balanced, and each
      acquire is counted once. */
  lemma {:induction false} RoutingBalances(s: seq<Metrics>, k: nat)
    requires s != []
    ensures Balanced(s, RouteMany(s, k)) && TotalActive(RouteMany(s, k)) == TotalActive(s) + k
  {
    if k > 0 {
      hide Route, LoadScore;
      RoutingBalances(s, k - 1);
      RouteKeepsBalanced(s, RouteMany(s, k - 1));
    }
  }

  /** Hence active counts of a used instance and any other differ by at most
      1 + latency / 500. */
  lemma ActiveCountsClose(s: seq<Metrics>, k: nat, i: nat, j: nat, maxLatency: nat)
    requires i < |s| && j < |s| && i < |RouteMany(s, k)| && j < |RouteMany(s, k)|
    requires RouteMany(s, k)[i].active > s[i].active && s[j].avgLatency <= maxLatency
    ensures RouteMany(s, k)[i].active <= RouteMany(s, k)[j].active + 1 + maxLatency / 500
  {
    RoutingBalances(s, k);
    var r := RouteMany(s, k);
    var d := r[i].active - r[j].active - 1;
    assert d * 500 <= maxLatency < (maxLatency / 500 + 1) * 500;
  }

  // ---------------------------------------------------------------- acquires and releases

  /** A call on a model's instances: an acquire is routed, a release names its instance. */
  datatype Use = AcquireAny | ReleaseOf(instance: nat, latency: nat)

  function Used(s: seq<Metrics>, u: Use): seq<Metrics> {
    match u
    case AcquireAny => Route(s)
    case ReleaseOf(i, latency) => if i < |s| then s[i := Ended(s[i], latency)] else s
  }

  function UseAll(s: seq<Metrics>, uses: seq<Use>): seq<Metrics> {
    if uses == [] then s else Used(UseAll(s, uses[..|uses| - 1]), uses[|uses| - 1])
  }

  /** The acquires that went to instance `i`, less its releases. */
  function Held(s: seq<Metrics>, uses: seq<Use>, i: nat): int
    requires s != []
  {
    if uses == [] then 0
    else
      var init, u := uses[..|uses| - 1], uses[|uses| - 1];
      Held(s, init, i) +
      (if u.AcquireAny? then (if UseAll(s, init) != [] && LeastLoaded(UseAll(s, init)) == i then 1 else 0)
       else if u.instance == i then -1 else 0)
  }

  /** Every release follows an acquire of the same instance that is still open. */
  ghost predicate Paired(s: seq<Metrics>, uses: seq<Use>)
    requires s != []
  {
    forall k :: 0 <= k < |uses| && uses[k].ReleaseOf? ==> Held(s, uses[..k], uses[k].instance) > 0
  }

  /** Over any run of acquires and releases each instance's active count moves by its
      acquires less its releases. */
  lemma {:induction false} ActiveIsHeld(s: seq<Metrics>, uses: seq<Use>, i: nat)
    requires i < |s| && Paired(s, uses)
    ensures |UseAll(s, uses)| == |s| && UseAll(s, uses)[i].active == s[i].active + Held(s, uses, i)
  {
    if uses != [] {
      var init, u := uses[..|uses| - 1], uses[|uses| - 1];
      forall k | 0 <= k < |init| && init[k].ReleaseOf? ensures Held(s, init[..k], init[k].instance) > 0 {
        assert uses[..k] == init[..k] && uses[k] == init[k];
      }
      ActiveIsHeld(s, init, i);
      hide LoadScore, NewAverage, Held;
      var before := UseAll(s, init);
      HeldStep(s, uses, i);
      if u.ReleaseOf? && u.instance == i { assert Held(s, uses[..|uses| - 1], i) > 0; }
    }
  }

  lemma HeldStep(s: seq<Metrics>, uses: seq<Use>, i: nat)
    requires s != [] && uses != []
    ensures var init, u := uses[..|uses| - 1], uses[|uses| - 1];
            Held(s, uses, i) == Held(s, init, i) +
              (if u.AcquireAny? then (if UseAll(s, init) != [] && LeastLoaded(UseAll(s, init)) == i then 1 else 0)
               else if u.instance == i then -1 else 0)
  {
  }

  /** A release undoes what its acquire did to the active count. */
  lemma ReleaseUndoesAcquire(m: Metrics, latency: nat)
    ensures Ended(Started(m), latency).active == m.active && Ended(Started(m), latency).total == m.total + 1
  {
  }

  // ---------------------------------------------------------------- the moving average

  function Average(start: nat, latencies: seq<nat>): nat {
    if latencies == [] then start
    else NewAverage(Average(start, latencies[..|latencies| - 1]), latencies[|latencies| - 1])
  }

  /** The average of recorded latencies stays between the least and the greatest of them. */
  lemma {:induction false} AverageWithin(start: nat, latencies: seq<nat>, lo: nat, hi: nat)
    requires start == 0 || lo <= start <= hi
    requires forall i :: 0 <= i < |latencies| ==> lo <= latencies[i] <= hi
    requires latencies != [] || start != 0
    ensures lo <= Average(start, latencies) <= hi
  {
    if latencies != [] {
      var init := latencies[..|latencies| - 1];
      if init != [] || start != 0 { AverageWithin(start, init, lo, hi); }
    }
  }

  /** How many more equal samples the average may need before it sits within nine below. */
  function Gap(avg: nat, x: nat): nat {
    if avg > x then avg - x
    else if avg == 0 || x - avg <= 9 then 0
    else x - avg - 9
  }

  function Constant(x: nat, k: nat): seq<nat> { if k == 0 then [] else Constant(x, k - 1) + [x] }

  lemma StepCloses(avg: nat, x: nat)
    ensures avg != 0 ==> Gap(NewAverage(avg, x), x) <= (if Gap(avg, x) > 0 then Gap(avg, x) - 1 else 0)
    ensures avg == 0 ==> NewAverage(avg, x) == x
  {
  }

  lemma {:induction false} GapFalls(avg: nat, x: nat, k: nat)
    ensures Gap(Average(avg, Constant(x, k)), x) <= (if Gap(avg, x) > k then Gap(avg, x) - k else 0)
    ensures k > 0 && x > 0 ==> Average(avg, Constant(x, k)) > 0
  {
    if k > 0 {
      GapFalls(avg, x, k - 1);
      var c := Constant(x, k);
      assert c[..|c| - 1] == Constant(x, k - 1);
      StepCloses(Average(avg, Constant(x, k - 1)), x);
    }
  }

  /** Under a constant latency the average reaches [x - 9, x] and stays there. */
  lemma AverageSettles(avg: nat, x: nat, k: nat)
    requires k > Gap(avg, x)
    ensures x - 9 <= Average(avg, Constant(x, k)) <= x
  {
    GapFalls(avg, x, k);
  }

  /** It need not reach x: nine below, it no longer moves. */
  lemma TruncationStalls(x: nat)
    requires x >= 10
    ensures NewAverage(x - 9, x) == x - 9
  {
  }

  lemma StepKeepsSide(a: nat, x: nat)
    ensures 0 < a < x ==> 0 < NewAverage(a, x) < x
    ensures a >= x && a != 0 ==> NewAverage(a, x) >= x
    ensures a == 0 ==> NewAverage(a, x) >= x
  {
  }

  lemma ConstantSnoc(avg: nat, x: nat, k: nat)
    requires k > 0
    ensures Average(avg, Constant(x, k)) == NewAverage(Average(avg, Constant(x, k - 1)), x)
  {
    var c := Constant(x, k);
    assert c[..|c| - 1] == Constant(x, k - 1);
  }

  /** Under a constant latency truncation never lifts the average to it from below, nor
      drops it past it from above. */
  lemma {:induction false} SidesKept(avg: nat, x: nat, k: nat)
    ensures 0 < avg < x ==> 0 < Average(avg, Constant(x, k)) < x
    ensures k > 0 && (avg == 0 || avg >= x) ==> Average(avg, Constant(x, k)) >= x
  {
    if k == 0 {
      assert Constant(x, k) == [];
    } else {
      SidesKept(avg, x, k - 1);
      ConstantSnoc(avg, x, k);
      StepKeepsSide(Average(avg, Constant(x, k - 1)), x);
      hide NewAverage, Constant;
      if k == 1 { StartsThere(avg, x); }
    }
  }

  lemma StartsThere(avg: nat, x: nat)
    ensures Average(avg, Constant(x, 0)) == avg
  {
  }

  predicate Equals(avg: nat, x: nat, k: nat) { Average(avg, Constant(x, k)) == x }

  /** Under a constant latency x the average comes to equal x, at some point or for good,
      exactly when it did not start between the two: unset, or at least x. */
  lemma AverageReachesIff(avg: nat, x: nat)
    ensures (exists k: nat :: k > 0 && Equals(avg, x, k)) <==> avg == 0 || avg >= x
    ensures (forall k: nat :: k > Gap(avg, x) ==> Equals(avg, x, k)) <==> avg == 0 || avg >= x
  {
    hide Average, Constant, Gap;
    if avg == 0 || avg >= x {
      forall k: nat | k > Gap(avg, x) ensures Equals(avg, x, k) {
        AverageSettles(avg, x, k);
        SidesKept(avg, x, k);
      }
    } else {
      forall k: nat ensures !Equals(avg, x, k) { SidesKept(avg, x, k); }
    }
    var n := Gap(avg, x) + 1;
    assert avg == 0 || avg >= x <==> Equals(avg, x, n);
  }

  // ---------------------------------------------------------------- the structs

  class InstanceMetrics {
    var activeRequests: nat
    var totalRequests: nat
    var avgLatencyMs: nat

    function View(): Metrics
      reads this
    {
      Metrics(activeRequests, totalRequests, avgLatencyMs)
    }

    constructor ()
      ensures View() == Metrics(0, 0, 0)
    {
      activeRequests, totalRequests, avgLatencyMs := 0, 0, 0;
    }

    method StartRequest()
      modifies this
      ensures View() == Started(old(View()))
      ensures activeRequests == old(activeRequests) + 1 && totalRequests == old(totalRequests) + 1
      ensures avgLatencyMs == old(avgLatencyMs)
    {
      activeRequests := activeRequests + 1;
      totalRequests := totalRequests + 1;
    }

    method EndRequest(latencyMs: nat)
      modifies this
      ensures View() == Ended(old(View()), latencyMs)
      ensures activeRequests == (if old(activeRequests) > 0 then old(activeRequests) - 1 else 0xFFFF_FFFF_FFFF_FFFF)
      ensures old(avgLatencyMs) == 0 ==> avgLatencyMs == latencyMs
      ensures old(avgLatencyMs) != 0 ==> 10 * avgLatencyMs <= 9 * old(avgLatencyMs) + latencyMs <= 10 * avgLatencyMs + 9
      ensures totalRequests == old(totalRequests)
    {
      activeRequests := if activeRequests > 0 then activeRequests - 1 else TWO_64 - 1;
      var currentAvg := avgLatencyMs;
      avgLatencyMs := if currentAvg == 0 then latencyMs else (currentAvg * 9 + latencyMs) / 10;
    }
  }

  ghost function Views(s: seq<InstanceMetrics>): seq<Metrics>
    reads s
  {
    seq(|s|, i requires 0 <= i < |s| reads s => s[i].View())
  }

  ghost predicate DistinctObjects(s: seq<InstanceMetrics>) {
    forall i, j :: 0 <= i < j < |s| ==> s[i] != s[j]
  }

  class ModelPool {
    var instances: map<string, seq<InstanceMetrics>>
    const maxInstancesPerModel: nat

    ghost predicate Valid()
      reads this
    {
      forall name :: name in instances ==>
        DistinctObjects(instances[name]) && |instances[name]| <= maxInstancesPerModel
    }

    constructor (maxInstancesPerModel: nat)
      ensures Valid() && instances == map[]
    {
      this.maxInstancesPerModel := maxInstancesPerModel;
      instances := map[];
    }

    /** A model already at its maximum is left as it is. */
    method AddInstance(name: string)
      requires Valid()
      modifies this
      ensures Valid() && name in instances
      ensures var before := if name in old(instances) then old(instances)[name] else [];
              if |before| < maxInstancesPerModel
              then |instances[name]| == |before| + 1 && instances[name][..|before|] == before &&
                   fresh(instances[name][|before|]) && instances[name][|before|].View() == Metrics(0, 0, 0)
              else instances[name] == before
      ensures forall other :: other != name ==> (other in instances <==> other in old(instances))
      ensures forall other :: other != name && other in instances ==> instances[other] == old(instances)[other]
    {
      var list := if name in instances then instances[name] else [];
      if |list| < maxInstancesPerModel {
        var metrics := new InstanceMetrics();
        list := list + [metrics];
      }
      instances := instances[name := list];
    }

    method SelectLeastLoaded(list: seq<InstanceMetrics>) returns (best: nat)
      requires list != []
      ensures best < |list| && best == LeastLoaded(Views(list))
    {
      best := 0;
      if |list| == 1 {
        return;
      }
      for i := 1 to |list|
        invariant best < i
        invariant forall j :: 0 <= j < i ==> LoadScore(list[best].View()) <= LoadScore(list[j].View())
        invariant forall j :: 0 <= j < best ==> LoadScore(list[best].View()) < LoadScore(list[j].View())
      {
        if LoadScore(list[i].View()) < LoadScore(list[best].View()) {
          best := i;
        }
      }
      FirstLeastUnique(Views(list), best);
    }

    /** Starts a request on the first least-loaded instance of the model, if it has any. */
    method Acquire(name: string) returns (metrics: InstanceMetrics?)
      requires Valid()
      modifies if name in instances then (set m | m in instances[name]) else {}
      ensures metrics != null <==> name in instances && instances[name] != []
      ensures metrics != null ==> metrics in instances[name]
      ensures name in instances ==> Views(instances[name]) == Route(old(Views(instances[name])))
      ensures metrics != null ==> metrics.activeRequests == old(metrics.activeRequests) + 1
    {
      if name !in instances || instances[name] == [] {
        return null;
      }
      ghost var before := Views(instances[name]);
      var index := SelectLeastLoaded(instances[name]);
      metrics := instances[name][index];
      metrics.StartRequest();
      assert Views(instances[name]) == before[index := Started(before[index])];
    }

    method Release(metrics: InstanceMetrics, latencyMs: nat)
      modifies metrics
      ensures metrics.View() == Ended(old(metrics.View()), latencyMs)
      ensures metrics.activeRequests ==
        (if old(metrics.activeRequests) > 0 then old(metrics.activeRequests) - 1 else 0xFFFF_FFFF_FFFF_FFFF)
    {
      metrics.EndRequest(latencyMs);
    }
  }

  lemma FirstLeastUnique(s: seq<Metrics>, i: nat)
    requires i < |s|
    requires forall j :: 0 <= j < |s| ==> LoadScore(s[i]) <= LoadScore(s[j])
    requires forall j :: 0 <= j < i ==> LoadScore(s[i]) < LoadScore(s[j])
    ensures LeastLoaded(s) == i
  {
  }
}
