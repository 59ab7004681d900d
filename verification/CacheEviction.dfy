/** The sampled eviction of src/cache.rs: entries never read go before entries that were,
    and within each class the least recently used, oldest insertion first. */
module CacheEvictions {
  import opened Wrappers
  import opened JsonValues

  datatype CacheEntry = CacheEntry(data: Json, timestamp: nat, ttl: nat, lastAccess: nat, accessCount: nat, insertionOrder: nat)

  type Entries = map<string, CacheEntry>

  const TWO_64: nat := 0x1_0000_0000_0000_0000

  /** The age test on 64-bit clocks: the subtraction wraps when the clock went back. */
  predicate Expired(timestamp: nat, ttl: nat, now: nat) {
    (now - timestamp) % TWO_64 > ttl
  }

  /** On a 64-bit clock an entry expires once it is older than its ttl; a clock that went back
      makes it as old as the wrapped difference. */
  lemma AgeTest(timestamp: nat, ttl: nat, now: nat)
    requires timestamp < 0x1_0000_0000_0000_0000 && now < 0x1_0000_0000_0000_0000
    ensures timestamp <= now ==> (Expired(timestamp, ttl, now) <==> now > timestamp + ttl)
    ensures timestamp > now ==> (Expired(timestamp, ttl, now) <==> now + 0x1_0000_0000_0000_0000 > timestamp + ttl)
  {
  }

  predicate Dead(e: CacheEntry, now: nat) { Expired(e.timestamp, e.ttl, now) }

  // ---------------------------------------------------------------- sample size

  function HitRate(hits: nat, misses: nat): real {
    if hits + misses == 0 then 1.0 else hits as real / (hits + misses) as real
  }

  function RawSampleSize(hits: nat, misses: nat): int { (20.0 + (1.0 - HitRate(hits, misses)) * 80.0).Floor }

  /** The adaptive sample size, over exact rates. */
  function SampleSize(hits: nat, misses: nat): nat {
    var n := RawSampleSize(hits, misses);
    if n < 20 then 20 else if n > 100 then 100 else n
  }

  lemma Quotient(h: real, t: real)
    requires 0.0 <= h <= t && t > 0.0
    ensures 0.0 <= h / t <= 1.0
  {
  }

  lemma QuotientFalls(h: real, t: real, t': real)
    requires 0.0 <= h && 0.0 < t <= t'
    ensures h / t' <= h / t
  {
  }

  /** The clamp never has to act, the extremes are the documented ones, and more misses
      never shrink the sample. */
  lemma SampleSizeRange(hits: nat, misses: nat, more: nat)
    ensures 20 <= RawSampleSize(hits, misses) <= 100 && SampleSize(hits, misses) == RawSampleSize(hits, misses)
    ensures misses == 0 ==> SampleSize(hits, misses) == 20
    ensures hits == 0 && misses > 0 ==> SampleSize(hits, misses) == 100
    ensures SampleSize(hits, misses) <= SampleSize(hits, misses + more)
  {
    RateInRange(hits, misses);
    RateInRange(hits, misses + more);
    if hits + misses > 0 {
      QuotientFalls(hits as real, (hits + misses) as real, (hits + misses + more) as real);
    }
  }

  /** 20 and the misses' share of 80 more, rounded down: in whole numbers. */
  lemma SampleSizeExact(hits: nat, misses: nat)
    requires hits + misses > 0
    ensures var n, total := SampleSize(hits, misses), hits + misses;
            n * total <= 20 * total + 80 * misses < n * total + total
  {
    SampleSizeRange(hits, misses, 0);
    MissShare(hits, misses);
    hide HitRate;
    var total := hits + misses;
    Bracket(20.0 + (1.0 - HitRate(hits, misses)) * 80.0, SampleSize(hits, misses), total, 20 * total + 80 * misses);
  }

  lemma MissShare(hits: nat, misses: nat)
    requires hits + misses > 0
    ensures (20.0 + (1.0 - HitRate(hits, misses)) * 80.0) * (hits + misses) as real ==
      (20 * (hits + misses) + 80 * misses) as real
  {
    ShareOfHits(hits, hits + misses);
    hide HitRate;
    Mixed(HitRate(hits, misses), (hits + misses) as real, hits as real);
  }

  lemma Bracket(x: real, n: nat, total: nat, y: nat)
    requires n == x.Floor && total > 0 && x * total as real == y as real
    ensures n * total <= y < n * total + total
  {
    ToReal(n, total);
    ScaleFloor(x, n, total as real, (n * total) as real, y as real);
    Whole(n * total, y, total);
  }

  lemma Whole(p: int, y: int, t: int)
    ensures p as real <= y as real < p as real + t as real <==> p <= y < p + t
  {
  }

  lemma ShareOfHits(hits: nat, total: nat)
    requires hits <= total && total > 0
    ensures HitRate(hits, total - hits) * total as real == hits as real
  {
  }

  lemma Mixed(r: real, t: real, h: real)
    requires r * t == h
    ensures (20.0 + (1.0 - r) * 80.0) * t == 100.0 * t - 80.0 * h
  {
    assert (20.0 + (1.0 - r) * 80.0) == 100.0 - 80.0 * r;
    assert (100.0 - 80.0 * r) * t == 100.0 * t - 80.0 * (r * t);
  }

  lemma ScaleFloor(x: real, n: int, t: real, low: real, scaled: real)
    requires n == x.Floor && t > 0.0 && low == n as real * t && scaled == x * t
    ensures low <= scaled < low + t
  {
    var d := x - n as real;
    assert 0.0 <= d < 1.0 && scaled - low == d * t;
    assert 0.0 <= d * t < t;
  }

  lemma ToReal(n: int, total: nat)
    ensures (n * total) as real == n as real * total as real
  {
  }

  lemma RateInRange(hits: nat, misses: nat)
    ensures 0.0 <= HitRate(hits, misses) <= 1.0
    ensures misses == 0 ==> HitRate(hits, misses) == 1.0
  {
  }

  // ---------------------------------------------------------------- rank

  predicate Older(a: CacheEntry, b: CacheEntry) {
    a.lastAccess < b.lastAccess || (a.lastAccess == b.lastAccess && a.insertionOrder < b.insertionOrder)
  }

  /** `a` is evicted before `b`: the lexicographic order of (was ever read, last access,
      insertion order). */
  predicate Precedes(a: CacheEntry, b: CacheEntry) {
    if (a.accessCount == 0) != (b.accessCount == 0) then a.accessCount == 0 else Older(a, b)
  }

  ghost predicate DistinctInsertions(data: Entries) {
    forall a, b :: a in data && b in data && a != b ==> data[a].insertionOrder != data[b].insertionOrder
  }

  /** `v` is the first of `keys` in eviction order. */
  ghost predicate IsVictim(data: Entries, keys: seq<string>, v: string) {
    v in keys && (forall k :: k in keys ==> k in data) &&
    forall k :: k in keys && k != v ==> Precedes(data[v], data[k])
  }

  /** `v` is the entry to give up among `keys`, field by field: unread if any of them is; among
      those of its kind the least recently used; among those equally recent the earliest
      inserted. */
  ghost predicate Loser(data: Entries, keys: set<string>, v: string) {
    v in keys && keys <= data.Keys &&
    ((exists k :: k in keys && data[k].accessCount == 0) ==> data[v].accessCount == 0) &&
    (forall k :: k in keys && (data[k].accessCount == 0 <==> data[v].accessCount == 0) ==>
       data[v].lastAccess <= data[k].lastAccess) &&
    (forall k :: k in keys && k != v && (data[k].accessCount == 0 <==> data[v].accessCount == 0) ==>
       data[k].lastAccess == data[v].lastAccess ==> data[v].insertionOrder < data[k].insertionOrder)
  }

  lemma VictimIsLoser(data: Entries, keys: seq<string>, v: string)
    requires IsVictim(data, keys, v)
    ensures Loser(data, (set k | k in keys), v)
  {
  }

  /** At most one key is first, so the order of the candidates cannot matter. */
  lemma VictimUnique(data: Entries, keys: seq<string>, shuffled: seq<string>, v: string, w: string)
    requires multiset(keys) == multiset(shuffled)
    requires IsVictim(data, keys, v) && IsVictim(data, shuffled, w)
    ensures v == w
  {
    assert v in multiset(keys) && w in multiset(shuffled);
    assert v in shuffled && w in keys;
  }

  // ---------------------------------------------------------------- candidates

  /** The first `limit` unexpired keys in the map's iteration order. */
  function Candidates(data: Entries, order: seq<string>, now: nat, limit: nat): seq<string> {
    if order == [] || limit == 0 then []
    else if order[0] in data && !Dead(data[order[0]], now)
    then [order[0]] + Candidates(data, order[1..], now, limit - 1)
    else Candidates(data, order[1..], now, limit)
  }

  /** The iteration order lists every key once. */
  ghost predicate Enumerates(order: seq<string>, data: Entries) {
    (forall k :: k in order <==> k in data) &&
    forall i, j :: 0 <= i < j < |order| ==> order[i] != order[j]
  }

  ghost function LiveKeys(data: Entries, now: nat): set<string> {
    set k | k in data && !Dead(data[k], now)
  }

  lemma {:induction false} CandidatesLive(data: Entries, order: seq<string>, now: nat, limit: nat)
    ensures forall k :: k in Candidates(data, order, now, limit) ==> k in order && k in LiveKeys(data, now)
    ensures |Candidates(data, order, now, limit)| <= limit
  {
    if order != [] && limit > 0 {
      assert order == [order[0]] + order[1..];
      CandidatesLive(data, order[1..], now, limit - 1);
      CandidatesLive(data, order[1..], now, limit);
    }
  }

  lemma {:induction false} CandidatesCount(data: Entries, order: seq<string>, now: nat, limit: nat)
    requires forall i, j :: 0 <= i < j < |order| ==> order[i] != order[j]
    ensures var c := Candidates(data, order, now, limit); |set k | k in c| == |c|
  {
    var c := Candidates(data, order, now, limit);
    if order != [] && limit > 0 {
      var rest := order[1..];
      assert forall i :: 0 <= i < |rest| ==> rest[i] == order[i + 1];
      if order[0] in data && !Dead(data[order[0]], now) {
        var c' := Candidates(data, rest, now, limit - 1);
        CandidatesCount(data, rest, now, limit - 1);
        CandidatesLive(data, rest, now, limit - 1);
        assert order[0] !in c';
        assert (set k | k in c) == (set k | k in c') + {order[0]};
      } else {
        CandidatesCount(data, rest, now, limit);
      }
    } else {
      assert (set k | k in c) == {};
    }
  }

  /** A sample that was not cut short holds everything live. */
  lemma {:induction false} CandidatesComplete(data: Entries, order: seq<string>, now: nat, limit: nat)
    requires |Candidates(data, order, now, limit)| < limit
    ensures forall k :: k in order && k in LiveKeys(data, now) ==> k in Candidates(data, order, now, limit)
  {
    if order != [] {
      assert order == [order[0]] + order[1..];
      if order[0] in data && !Dead(data[order[0]], now) {
        CandidatesComplete(data, order[1..], now, limit - 1);
      } else {
        CandidatesComplete(data, order[1..], now, limit);
      }
    }
  }

  /** The live entries that should have gone before `v`. */
  ghost function Lower(data: Entries, now: nat, v: string): set<string>
    requires v in data
  {
    set k | k in LiveKeys(data, now) && Precedes(data[k], data[v])
  }

  lemma SubsetSize(a: set<string>, b: set<string>)
    requires a <= b
    ensures |a| <= |b| && (|a| == |b| ==> a == b)
  {
    assert b == a + (b - a);
  }

  /** With `n` live entries and `m` sampled, the victim is among the n - m + 1 lowest ranked;
      when everything live was sampled it is the lowest of all. */
  lemma VictimRank(data: Entries, order: seq<string>, now: nat, limit: nat, v: string)
    requires Enumerates(order, data) && IsVictim(data, Candidates(data, order, now, limit), v)
    ensures v in LiveKeys(data, now)
    ensures |Lower(data, now, v)| <= |LiveKeys(data, now)| - |Candidates(data, order, now, limit)|
    ensures |LiveKeys(data, now)| <= limit ==> Lower(data, now, v) == {}
  {
    var c := Candidates(data, order, now, limit);
    var sampled := set k | k in c;
    var live := LiveKeys(data, now);
    CandidatesLive(data, order, now, limit);
    CandidatesCount(data, order, now, limit);
    assert Lower(data, now, v) !! sampled;
    SubsetSize(Lower(data, now, v) + sampled, live);
    SubsetSize(sampled, live);
    if |live| <= limit && |c| < limit {
      CandidatesComplete(data, order, now, limit);
      assert live <= sampled;
    }
  }

  /** A victim of a sample that holds everything live is the loser of all that is live. */
  lemma FullSampleIsGlobal(data: Entries, order: seq<string>, now: nat, limit: nat, v: string)
    requires Enumerates(order, data) && IsVictim(data, Candidates(data, order, now, limit), v)
    requires |LiveKeys(data, now)| <= limit
    ensures Loser(data, LiveKeys(data, now), v)
  {
    var c := Candidates(data, order, now, limit);
    CandidatesLive(data, order, now, limit);
    CandidatesCount(data, order, now, limit);
    if |c| < limit {
      CandidatesComplete(data, order, now, limit);
    } else {
      SubsetSize((set k | k in c), LiveKeys(data, now));
    }
    assert (set k | k in c) == LiveKeys(data, now);
    hide Precedes, LiveKeys, Candidates;
    VictimIsLoser(data, c, v);
  }

  // ---------------------------------------------------------------- the code's search

  /** The earliest of `keys` by (last access, insertion order), among all of them or among
      those never read. */
  method MinIndex(data: Entries, keys: seq<string>, onlyUnread: bool) returns (r: Option<nat>)
    requires forall k :: k in keys ==> k in data
    ensures r.None? ==> keys == [] || onlyUnread
    ensures r.None? && onlyUnread ==> forall i :: 0 <= i < |keys| ==> data[keys[i]].accessCount > 0
    ensures r.Some? ==> r.value < |keys| && (onlyUnread ==> data[keys[r.value]].accessCount == 0)
    ensures r.Some? ==> forall i :: 0 <= i < |keys| && (onlyUnread ==> data[keys[i]].accessCount == 0) ==>
      !Older(data[keys[i]], data[keys[r.value]])
  {
    r := None;
    for i := 0 to |keys|
      invariant r.None? ==> i == 0 || onlyUnread
      invariant r.None? && onlyUnread ==> forall j :: 0 <= j < i ==> data[keys[j]].accessCount > 0
      invariant r.Some? ==> r.value < i && (onlyUnread ==> data[keys[r.value]].accessCount == 0)
      invariant r.Some? ==> forall j :: 0 <= j < i && (onlyUnread ==> data[keys[j]].accessCount == 0) ==>
        !Older(data[keys[j]], data[keys[r.value]])
    {
      if !onlyUnread || data[keys[i]].accessCount == 0 {
        if r.None? || Older(data[keys[i]], data[keys[r.value]]) {
          r := Some(i);
        }
      }
    }
  }

  /** Two passes over a shuffled sample: unread entries first, then any. The result is the
      one victim whatever the shuffle. */
  method SelectVictim(data: Entries, shuffled: seq<string>) returns (v: string)
    requires DistinctInsertions(data) && shuffled != []
    requires forall k :: k in shuffled ==> k in data
    ensures IsVictim(data, shuffled, v) && Loser(data, (set k | k in shuffled), v)
  {
    var unread := MinIndex(data, shuffled, true);
    var index := unread;
    if unread.None? {
      index := MinIndex(data, shuffled, false);
    }
    v := shuffled[index.value];
    forall k | k in shuffled && k != v ensures Precedes(data[v], data[k]) {
      var i :| 0 <= i < |shuffled| && shuffled[i] == k;
      assert data[k].insertionOrder != data[v].insertionOrder;
    }
    VictimIsLoser(data, shuffled, v);
  }

  /** The filter-and-take over the map's iterator. */
  method Collect(data: Entries, order: seq<string>, now: nat, limit: nat) returns (c: seq<string>)
    ensures c == Candidates(data, order, now, limit)
  {
    c := [];
    var i := 0;
    while i < |order| && |c| < limit
      invariant i <= |order| && |c| <= limit
      invariant Candidates(data, order, now, limit) == c + Candidates(data, order[i..], now, limit - |c|)
    {
      assert order[i..][1..] == order[i + 1..];
      if order[i] in data && !Dead(data[order[i]], now) {
        c := c + [order[i]];
      }
      i := i + 1;
    }
  }

  /** The entry inserted first: what goes when everything has expired. */
  method OldestInsertion(data: Entries, order: seq<string>) returns (r: Option<string>)
    requires Enumerates(order, data)
    ensures r.None? <==> data == map[]
    ensures r.Some? ==> r.value in data
    ensures r.Some? ==> forall k :: k in data ==> data[r.value].insertionOrder <= data[k].insertionOrder
  {
    r := None;
    for i := 0 to |order|
      invariant r.None? <==> i == 0
      invariant r.Some? ==> r.value in data
      invariant r.Some? ==> forall j :: 0 <= j < i ==> data[r.value].insertionOrder <= data[order[j]].insertionOrder
    {
      assert order[i] in order;
      if r.None? || data[order[i]].insertionOrder < data[r.value].insertionOrder {
        r := Some(order[i]);
      }
    }
    if |order| == 0 { assert forall k :: k !in data; }
  }
}
