/** src/monitor.rs: global counters and per-endpoint online means, against the requests that
    ended since the last reset. Means are real numbers. */
module Monitors {
  import opened Wrappers

  datatype EndpointStats = EndpointStats(calls: nat, errors: nat, mean: real)

  datatype State = State(requests: nat, active: nat, processed: nat, latency: nat, errors: nat, minLatency: nat,
                         maxLatency: nat, endpoints: map<string, EndpointStats>)

  const U64_MAX: nat := 0xFFFF_FFFF_FFFF_FFFF

  const INITIAL := State(0, 0, 0, 0, 0, U64_MAX, 0, map[])

  datatype Event = Start | End(latency: nat, endpoint: string, success: bool) | Reset

  /** One more call folded into an endpoint's running mean. */
  function Counted(s: EndpointStats, latency: nat, success: bool): EndpointStats {
    var calls := s.calls + 1;
    EndpointStats(calls, if success then s.errors else s.errors + 1,
                  s.mean + (latency as real - s.mean) / calls as real)
  }

  function First(latency: nat, success: bool): EndpointStats {
    EndpointStats(1, if success then 0 else 1, latency as real)
  }

  function Ended(m: State, latency: nat, endpoint: string, success: bool): State {
    State(m.requests, if m.active > 0 then m.active - 1 else U64_MAX, m.processed + 1, m.latency + latency,
          if success then m.errors else m.errors + 1,
          if latency < m.minLatency then latency else m.minLatency,
          if latency > m.maxLatency then latency else m.maxLatency,
          m.endpoints[endpoint := if endpoint in m.endpoints then Counted(m.endpoints[endpoint], latency, success)
                                  else First(latency, success)])
  }

  function Next(m: State, e: Event): State {
    match e
    case Start => m.(requests := m.requests + 1, active := m.active + 1)
    case End(latency, endpoint, success) => Ended(m, latency, endpoint, success)
    case Reset => INITIAL
  }

  function Run(events: seq<Event>): State {
    if events == [] then INITIAL else Next(Run(events[..|events| - 1]), events[|events| - 1])
  }

  /** The requests that ended since the last reset. */
  function Since(events: seq<Event>): seq<Event> {
    if events == [] then []
    else
      var before, e := Since(events[..|events| - 1]), events[|events| - 1];
      if e.Reset? then [] else if e.End? then before + [e] else before
  }

  /** Calls, errors and summed latency of one endpoint, or of all. */
  datatype Tally = Tally(calls: nat, errors: nat, latency: nat)

  function Bump(t: Tally, e: Event): Tally
    requires e.End?
  {
    Tally(t.calls + 1, if e.success then t.errors else t.errors + 1, t.latency + e.latency)
  }

  predicate Concerns(e: Event, endpoint: Option<string>)
    requires e.End?
  {
    endpoint.None? || e.endpoint == endpoint.value
  }

  function Of(ended: seq<Event>, endpoint: Option<string>): Tally {
    if ended == [] then Tally(0, 0, 0)
    else
      var t, e := Of(ended[..|ended| - 1], endpoint), ended[|ended| - 1];
      if e.End? && Concerns(e, endpoint) then Bump(t, e) else t
  }

  lemma OfSnoc(ended: seq<Event>, e: Event, endpoint: Option<string>)
    requires e.End?
    ensures Of(ended + [e], endpoint) ==
      if Concerns(e, endpoint) then Bump(Of(ended, endpoint), e) else Of(ended, endpoint)
  {
    assert (ended + [e])[..|ended|] == ended;
  }

  /** The latency an online mean stands for. */
  function MeanTimesCalls(s: EndpointStats): real { s.mean * s.calls as real }

  /** The online mean times the calls is the summed latency. */
  ghost predicate Matches(s: EndpointStats, t: Tally) {
    s.calls == t.calls && s.errors == t.errors && MeanTimesCalls(s) == t.latency as real
  }

  /** The stored statistics of an endpoint are those of its requests, present exactly when
      it had one. */
  ghost predicate Describes(m: State, endpoint: string, t: Tally) {
    (endpoint in m.endpoints <==> t.calls > 0) &&
    (endpoint in m.endpoints ==> Matches(m.endpoints[endpoint], t)) &&
    (t.calls == 0 ==> t == Tally(0, 0, 0))
  }

  lemma MeanStep(mean: real, n: nat, x: real, sum: real)
    requires mean * n as real == sum
    ensures (mean + (x - mean) / (n + 1) as real) * (n + 1) as real == sum + x
  {
    var k := (n + 1) as real;
    assert ((x - mean) / k) * k == x - mean;
    assert (mean + (x - mean) / k) * k == mean * k + ((x - mean) / k) * k;
    assert mean * k == mean * n as real + mean;
  }

  lemma CountedMatches(s: EndpointStats, t: Tally, e: Event)
    requires e.End? && Matches(s, t)
    ensures Matches(Counted(s, e.latency, e.success), Bump(t, e))
  {
    MeanStep(s.mean, s.calls, e.latency as real, t.latency as real);
  }

  lemma FirstMatches(e: Event)
    requires e.End?
    ensures Matches(First(e.latency, e.success), Bump(Tally(0, 0, 0), e))
  {
  }

  lemma EndDescribes(m: State, ended: seq<Event>, e: Event, endpoint: string)
    requires e.End? && Describes(m, endpoint, Of(ended, Some(endpoint)))
    ensures Describes(Next(m, e), endpoint, Of(ended + [e], Some(endpoint)))
  {
    hide Of, Counted, First, Matches;
    OfSnoc(ended, e, Some(endpoint));
    if e.endpoint == endpoint {
      if endpoint in m.endpoints {
        CountedMatches(m.endpoints[endpoint], Of(ended, Some(endpoint)), e);
      } else {
        FirstMatches(e);
      }
    }
  }

  /** Over any run every endpoint's statistics are exact. */
  lemma {:induction false} EndpointsExact(events: seq<Event>, endpoint: string)
    ensures Describes(Run(events), endpoint, Of(Since(events), Some(endpoint)))
  {
    if events != [] {
      var init, e := events[..|events| - 1], events[|events| - 1];
      EndpointsExact(init, endpoint);
      if e.End? {
        hide Describes, Of, Next;
        EndDescribes(Run(init), Since(init), e, endpoint);
      }
    }
  }

  /** The global counters tally all requests since the last reset. */
  lemma {:induction false} TotalsExact(events: seq<Event>)
    ensures var m, t := Run(events), Of(Since(events), None);
            m.processed == t.calls && m.errors == t.errors && m.latency == t.latency
  {
    hide Of, Counted, First;
    if events == [] {
      NothingTallied();
    } else {
      var init, e := events[..|events| - 1], events[|events| - 1];
      TotalsExact(init);
      NothingTallied();
      if e.End? { OfSnoc(Since(init), e, None); }
    }
  }

  /** The requests that started since the last reset. */
  function Starts(events: seq<Event>): nat {
    if events == [] then 0
    else
      var n, e := Starts(events[..|events| - 1]), events[|events| - 1];
      if e.Reset? then 0 else if e.Start? then n + 1 else n
  }

  /** Every request that ends started since the last reset. */
  ghost predicate Paired(events: seq<Event>) {
    forall k :: 0 <= k < |events| && events[k].End? ==> |Since(events[..k])| < Starts(events[..k])
  }

  /** The request counter counts the starts since the last reset, and then the active
      counter is the starts less the ends. */
  lemma {:induction false} ActiveExact(events: seq<Event>)
    ensures Run(events).requests == Starts(events)
    ensures Paired(events) ==> Run(events).active + |Since(events)| == Starts(events)
  {
    if events != [] {
      var init, e := events[..|events| - 1], events[|events| - 1];
      ActiveExact(init);
      hide Counted, First;
      if Paired(events) {
        forall k | 0 <= k < |init| && init[k].End? ensures |Since(init[..k])| < Starts(init[..k]) {
          assert events[..k] == init[..k] && events[k] == init[k];
        }
        assert e.End? ==> |Since(init)| < Starts(init);
      }
    }
  }

  lemma NothingTallied()
    ensures Of([], None) == Tally(0, 0, 0)
  {
  }

  /** The recorded extremes bound every latency of the requests that ended. */
  ghost predicate Bounds(m: State, ended: seq<Event>) {
    forall e :: e in ended ==> e.End? && m.minLatency <= e.latency <= m.maxLatency
  }

  /** And each is one of them, once there is one. */
  ghost predicate Attained(m: State, ended: seq<Event>) {
    if ended == [] then m.minLatency == U64_MAX && m.maxLatency == 0
    else (exists e :: e in ended && e.End? && e.latency == m.minLatency) &&
         (exists e :: e in ended && e.End? && e.latency == m.maxLatency)
  }

  lemma EndExtremes(m: State, ended: seq<Event>, e: Event)
    requires Bounds(m, ended) && Attained(m, ended) && e.End? && e.latency <= U64_MAX
    ensures Bounds(Next(m, e), ended + [e]) && Attained(Next(m, e), ended + [e])
  {
    hide Counted, First;
    var m', all := Next(m, e), ended + [e];
    assert e in all;
    if ended != [] {
      var lo :| lo in ended && lo.End? && lo.latency == m.minLatency;
      var hi :| hi in ended && hi.End? && hi.latency == m.maxLatency;
      assert lo in all && hi in all;
      assert m'.minLatency == lo.latency || m'.minLatency == e.latency;
      assert m'.maxLatency == hi.latency || m'.maxLatency == e.latency;
    }
  }

  /** The minimum and maximum are the least and greatest latency since the last reset. */
  lemma {:induction false} ExtremesExact(events: seq<Event>)
    requires forall i :: 0 <= i < |events| && events[i].End? ==> events[i].latency <= U64_MAX
    ensures Bounds(Run(events), Since(events)) && Attained(Run(events), Since(events))
  {
    if events != [] {
      var init, e := events[..|events| - 1], events[|events| - 1];
      ExtremesExact(init);
      if e.End? {
        hide Bounds, Attained, Next;
        EndExtremes(Run(init), Since(init), e);
      }
    }
  }

  function Plus(a: Tally, b: Tally): Tally { Tally(a.calls + b.calls, a.errors + b.errors, a.latency + b.latency) }

  function Overall(ended: seq<Event>, endpoints: seq<string>): Tally {
    if endpoints == [] then Tally(0, 0, 0) else Plus(Of(ended, Some(endpoints[0])), Overall(ended, endpoints[1..]))
  }

  ghost predicate NoRepeats(endpoints: seq<string>) {
    forall i, j :: 0 <= i < j < |endpoints| ==> endpoints[i] != endpoints[j]
  }

  lemma TailNoRepeats(endpoints: seq<string>)
    requires NoRepeats(endpoints) && endpoints != []
    ensures NoRepeats(endpoints[1..]) && endpoints[0] !in endpoints[1..]
    ensures forall x :: x in endpoints <==> x == endpoints[0] || x in endpoints[1..]
  {
    assert endpoints == [endpoints[0]] + endpoints[1..];
  }

  lemma {:induction false} OverallSnoc(ended: seq<Event>, e: Event, endpoints: seq<string>)
    requires e.End? && NoRepeats(endpoints)
    ensures Overall(ended + [e], endpoints) ==
      if e.endpoint in endpoints then Bump(Overall(ended, endpoints), e) else Overall(ended, endpoints)
  {
    hide Of, NoRepeats;
    if endpoints != [] {
      TailNoRepeats(endpoints);
      OfSnoc(ended, e, Some(endpoints[0]));
      OverallSnoc(ended, e, endpoints[1..]);
    }
  }

  /** The endpoints partition the requests: their tallies add up to that of all. */
  lemma {:induction false} TalliesAddUp(ended: seq<Event>, endpoints: seq<string>)
    requires NoRepeats(endpoints)
    requires forall i :: 0 <= i < |ended| ==> ended[i].End? && ended[i].endpoint in endpoints
    ensures Overall(ended, endpoints) == Of(ended, None)
  {
    hide Of, NoRepeats, Overall;
    NothingOverall(endpoints);
    NothingTallied();
    if ended != [] {
      var init, e := ended[..|ended| - 1], ended[|ended| - 1];
      assert ended == init + [e];
      TalliesAddUp(init, endpoints);
      OverallSnoc(init, e, endpoints);
      OfSnoc(init, e, None);
    }
  }

  lemma {:induction false} NothingOverall(endpoints: seq<string>)
    ensures Overall([], endpoints) == Tally(0, 0, 0)
  {
    if endpoints != [] { NothingOverall(endpoints[1..]); }
  }

  /** What the monitor stores, summed over a list of endpoints: calls, errors, and mean
      times calls. */
  datatype Totals = Totals(calls: nat, errors: nat, latency: real)

  function Stored(m: State, endpoints: seq<string>): Totals {
    if endpoints == [] then Totals(0, 0, 0.0)
    else
      var rest := Stored(m, endpoints[1..]);
      if endpoints[0] !in m.endpoints then rest
      else
        var s := m.endpoints[endpoints[0]];
        Totals(s.calls + rest.calls, s.errors + rest.errors, MeanTimesCalls(s) + rest.latency)
  }

  /** Stored totals are those of a tally. */
  ghost predicate Sums(s: Totals, t: Tally) {
    s.calls == t.calls && s.errors == t.errors && s.latency == t.latency as real
  }

  lemma AddReals(a: nat, b: nat)
    ensures (a + b) as real == a as real + b as real
  {
  }

  lemma StoredHead(m: State, endpoints: seq<string>)
    requires endpoints != [] && endpoints[0] in m.endpoints
    ensures var s, rest := m.endpoints[endpoints[0]], Stored(m, endpoints[1..]);
            Stored(m, endpoints) == Totals(s.calls + rest.calls, s.errors + rest.errors, MeanTimesCalls(s) + rest.latency)
  {
    hide MeanTimesCalls;
  }

  lemma StoredSkip(m: State, endpoints: seq<string>)
    requires endpoints != [] && endpoints[0] !in m.endpoints
    ensures Stored(m, endpoints) == Stored(m, endpoints[1..])
  {
  }

  lemma StoredStep(m: State, endpoints: seq<string>, first: Tally, rest: Tally)
    requires endpoints != [] && Describes(m, endpoints[0], first) && Sums(Stored(m, endpoints[1..]), rest)
    ensures Sums(Stored(m, endpoints), Plus(first, rest))
  {
    hide MeanTimesCalls, Stored;
    if endpoints[0] in m.endpoints {
      StoredHead(m, endpoints);
      AddReals(first.latency, rest.latency);
    } else {
      StoredSkip(m, endpoints);
    }
  }

  lemma {:induction false} StoredIsOverall(events: seq<Event>, endpoints: seq<string>)
    ensures Sums(Stored(Run(events), endpoints), Overall(Since(events), endpoints))
  {
    hide Run, Since, Of, Describes, Plus;
    if endpoints != [] {
      StoredIsOverall(events, endpoints[1..]);
      EndpointsExact(events, endpoints[0]);
      hide Sums, Stored;
      StoredStep(Run(events), endpoints, Of(Since(events), Some(endpoints[0])), Overall(Since(events), endpoints[1..]));
    }
  }

  /** Every request that ended since the last reset has its endpoint tracked. */
  lemma {:induction false} EndedAreTracked(events: seq<Event>)
    ensures forall e :: e in Since(events) ==> e.End? && e.endpoint in Run(events).endpoints
  {
    if events != [] { EndedAreTracked(events[..|events| - 1]); }
  }

  /** Over any run, the stored statistics of the endpoints add up to the stored global ones:
      calls, errors and latency. `endpoints` lists every tracked endpoint, once each. */
  lemma EndpointsAddUp(events: seq<Event>, endpoints: seq<string>)
    requires NoRepeats(endpoints) && forall k :: k in Run(events).endpoints ==> k in endpoints
    ensures var m, s := Run(events), Stored(Run(events), endpoints);
            s.calls == m.processed && s.errors == m.errors && s.latency == m.latency as real
  {
    hide Run, Since, Of, Overall, Stored;
    EndedAreTracked(events);
    TalliesAddUp(Since(events), endpoints);
    StoredIsOverall(events, endpoints);
    TotalsExact(events);
  }

  class Monitor {
    var totalRequests: nat
    var activeRequests: nat
    var totalProcessed: nat
    var totalLatency: nat
    var totalErrors: nat
    var minLatency: nat
    var maxLatency: nat
    var endpointStats: map<string, EndpointStats>
    /** Every event recorded so far. */
    ghost var events: seq<Event>

    ghost function View(): State
      reads this
    {
      State(totalRequests, activeRequests, totalProcessed, totalLatency, totalErrors, minLatency, maxLatency, endpointStats)
    }

    ghost predicate Valid()
      reads this
    {
      View() == Run(events)
    }

    constructor ()
      ensures Valid() && events == []
    {
      totalRequests, activeRequests, totalProcessed, totalLatency, totalErrors := 0, 0, 0, 0, 0;
      minLatency, maxLatency := U64_MAX, 0;
      endpointStats := map[];
      events := [];
    }

    ghost method Record(e: Event)
      requires View() == Next(Run(events), e)
      modifies this`events
      ensures Valid() && events == old(events) + [e]
    {
      hide Next;
      events := events + [e];
      assert events[..|events| - 1] == old(events);
    }

    method RecordRequestStart()
      requires Valid()
      modifies this
      ensures Valid() && events == old(events) + [Start]
      ensures totalRequests == old(totalRequests) + 1 && activeRequests == old(activeRequests) + 1
    {
      hide Run;
      totalRequests := totalRequests + 1;
      activeRequests := activeRequests + 1;
      Record(Start);
    }

    method RecordRequestEnd(latencyMs: nat, endpoint: string, success: bool)
      requires Valid()
      modifies this
      ensures Valid() && events == old(events) + [End(latencyMs, endpoint, success)]
      ensures activeRequests == (if old(activeRequests) > 0 then old(activeRequests) - 1 else 0xFFFF_FFFF_FFFF_FFFF)
      ensures totalProcessed == old(totalProcessed) + 1 && totalLatency == old(totalLatency) + latencyMs
      ensures totalErrors == old(totalErrors) + (if success then 0 else 1) && totalRequests == old(totalRequests)
    {
      hide Run, Counted, First;
      ghost var before := View();
      activeRequests := if activeRequests > 0 then activeRequests - 1 else U64_MAX;
      totalProcessed := totalProcessed + 1;
      totalLatency := totalLatency + latencyMs;
      FoldExtremes(latencyMs);
      CountEndpoint(latencyMs, endpoint, success);
      if !success {
        totalErrors := totalErrors + 1;
      }
      assert View() == Ended(before, latencyMs, endpoint, success);
      hide Ended;
      Record(End(latencyMs, endpoint, success));
    }

    method FoldExtremes(latencyMs: nat)
      modifies this`minLatency, this`maxLatency
      ensures minLatency == if latencyMs < old(minLatency) then latencyMs else old(minLatency)
      ensures maxLatency == if latencyMs > old(maxLatency) then latencyMs else old(maxLatency)
    {
      minLatency := if latencyMs < minLatency then latencyMs else minLatency;
      maxLatency := if latencyMs > maxLatency then latencyMs else maxLatency;
    }

    /** Folds one request into its endpoint's statistics. */
    method CountEndpoint(latencyMs: nat, endpoint: string, success: bool)
      modifies this`endpointStats
      ensures endpointStats == old(endpointStats)[endpoint :=
        if endpoint in old(endpointStats) then Counted(old(endpointStats)[endpoint], latencyMs, success)
        else First(latencyMs, success)]
    {
      hide Counted, First;
      if endpoint in endpointStats {
        endpointStats := endpointStats[endpoint := Counted(endpointStats[endpoint], latencyMs, success)];
      } else {
        endpointStats := endpointStats[endpoint := First(latencyMs, success)];
      }
    }

    /** The global average is the summed latency over the requests that ended. */
    method GetAvgLatency() returns (avg: real)
      requires Valid()
      ensures avg * totalProcessed as real == totalLatency as real || totalProcessed == 0
      ensures totalProcessed == 0 ==> avg == 0.0
    {
      if totalProcessed == 0 {
        return 0.0;
      }
      avg := totalLatency as real / totalProcessed as real;
    }

    method ResetAll()
      requires Valid()
      modifies this
      ensures Valid() && events == old(events) + [Reset]
    {
      hide Run;
      totalRequests, activeRequests, totalProcessed, totalLatency, totalErrors := 0, 0, 0, 0, 0;
      minLatency, maxLatency := U64_MAX, 0;
      endpointStats := map[];
      Record(Reset);
    }
  }
}
