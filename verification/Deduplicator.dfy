/** src/dedup.rs over whole traces: sixteen LRU shards against one unbounded per-key map,
    and against the same deduplicator with more room. Claims hold for every routing. */
module Deduplicators {
  import opened Wrappers
  import opened JsonValues
  import opened LruShards

  const NUM_SHARDS: nat := 16

  /** The capacity of each shard: an even split, at least one slot. */
  function PerShard(maxEntries: nat): (n: nat)
    ensures n >= 1 && 16 * n >= maxEntries && (n == 1 || 16 * (n - 1) < maxEntries)
  {
    var n := (maxEntries + NUM_SHARDS - 1) / NUM_SHARDS;
    if n >= 1 then n else 1
  }

  datatype Event = Set(key: string, result: Json, ttl: nat) | Get(key: string) | Invalidate(key: string) | Clear | Cleanup

  /** A call and the clock reading it makes. */
  datatype Call = Call(event: Event, now: nat)

  type Router = string -> nat

  function IndexOf(route: Router, key: string): nat { route(key) % NUM_SHARDS }

  /** What a call does to shard `i`. */
  function OnShard(route: Router, capacity: nat, i: nat, s: Shard, c: Call): Shard {
    match c.event
    case Set(key, result, ttl) =>
      if IndexOf(route, key) == i then Put(capacity, s, key, Entry(result, c.now, ttl)) else s
    case Get(key) => if IndexOf(route, key) == i then Looked(s, key, c.now) else s
    case Invalidate(key) => if IndexOf(route, key) == i then Remove(s, key) else s
    case Clear => []
    case Cleanup => Unexpired(s, c.now)
  }

  /** Shard `i` after a trace. */
  function After(route: Router, capacity: nat, i: nat, calls: seq<Call>): Shard {
    if calls == [] then []
    else OnShard(route, capacity, i, After(route, capacity, i, calls[..|calls| - 1]), calls[|calls| - 1])
  }

  /** What `get(key)` answers at `now` after a trace. */
  function Answer(route: Router, maxEntries: nat, calls: seq<Call>, key: string, now: nat): Option<Json> {
    Hit(After(route, PerShard(maxEntries), IndexOf(route, key), calls), key, now)
  }

  // ---------------------------------------------------------------- more room, same hits

  lemma PerShardGrows(m: nat, m': nat)
    requires m <= m'
    ensures PerShard(m) <= PerShard(m')
  {
  }

  lemma {:induction false} TraceIncluded(route: Router, c: nat, c': nat, i: nat, calls: seq<Call>)
    requires 1 <= c <= c'
    ensures Included(c, c', After(route, c, i, calls), After(route, c', i, calls))
  {
    if calls != [] {
      var init, call := calls[..|calls| - 1], calls[|calls| - 1];
      TraceIncluded(route, c, c', i, init);
      var small, large := After(route, c, i, init), After(route, c', i, init);
      match call.event {
        case Set(key, result, ttl) => PutKeepsIncluded(c, c', small, large, key, Entry(result, call.now, ttl));
        case Get(key) => LookKeepsIncluded(c, c', small, large, key, call.now);
        case Invalidate(key) => RemoveKeepsIncluded(c, c', small, large, key);
        case Clear =>
        case Cleanup => UnexpiredKeepsIncluded(c, c', small, large, call.now);
      }
    }
  }

  /** Over any trace and at any time, every hit of a deduplicator is the same hit in one
      built with more entries. */
  lemma LargerKeepsHits(route: Router, m: nat, m': nat, calls: seq<Call>, key: string, now: nat)
    requires m <= m' && Answer(route, m, calls, key, now).Some?
    ensures Answer(route, m', calls, key, now) == Answer(route, m, calls, key, now)
  {
    PerShardGrows(m, m');
    var i := IndexOf(route, key);
    TraceIncluded(route, PerShard(m), PerShard(m'), i, calls);
    LookKeepsIncluded(PerShard(m), PerShard(m'), After(route, PerShard(m), i, calls),
                      After(route, PerShard(m'), i, calls), key, now);
  }

  // ---------------------------------------------------------------- size

  function TotalSize(route: Router, capacity: nat, calls: seq<Call>, shards: nat): nat {
    if shards == 0 then 0
    else TotalSize(route, capacity, calls, shards - 1) + |After(route, capacity, shards - 1, calls)|
  }

  lemma {:induction false} SizeBound(route: Router, capacity: nat, calls: seq<Call>, shards: nat)
    requires capacity >= 1
    ensures TotalSize(route, capacity, calls, shards) <= shards * capacity
  {
    if shards > 0 {
      SizeBound(route, capacity, calls, shards - 1);
      TraceIncluded(route, capacity, capacity, shards - 1, calls);
      assert shards * capacity == (shards - 1) * capacity + capacity;
    }
  }

  /** `size()` never exceeds 16 * max(1, ceil(max_entries / 16)). */
  lemma DeduplicatorSize(route: Router, maxEntries: nat, calls: seq<Call>)
    ensures TotalSize(route, PerShard(maxEntries), calls, 16) <= if maxEntries <= 16 then 16 else maxEntries + 15
  {
    SizeBound(route, PerShard(maxEntries), calls, NUM_SHARDS);
  }

  // ---------------------------------------------------------------- the per-key map

  /** The unbounded map: the last entry set for each key and not invalidated. */
  function Reference(calls: seq<Call>): map<string, Entry> {
    if calls == [] then map[] else Recorded(Reference(calls[..|calls| - 1]), calls[|calls| - 1])
  }

  function Recorded(m: map<string, Entry>, c: Call): map<string, Entry> {
    match c.event
    case Set(key, result, ttl) => m[key := Entry(result, c.now, ttl)]
    case Invalidate(key) => m - {key}
    case Clear => map[]
    case _ => m
  }

  /** Every stored node is the map's current entry for its key, and sits in its own shard. */
  ghost predicate Backed(route: Router, i: nat, s: Shard, m: map<string, Entry>) {
    Unique(s) && forall n :: n in s ==> IndexOf(route, n.key) == i && n.key in m && m[n.key] == n.entry
  }

  lemma PutMembers(capacity: nat, s: Shard, key: string, e: Entry)
    requires Unique(s)
    ensures forall n :: n in Put(capacity, s, key, e) ==> n == Node(key, e) || (n in s && n.key != key)
    ensures Unique(Put(capacity, s, key, e))
  {
    BehindLacksKey(capacity, s, key);
    UniqueCons(Node(key, e), Behind(capacity, s, key));
    assert Put(capacity, s, key, e) == [Node(key, e)] + Behind(capacity, s, key);
  }

  lemma LookedMembers(s: Shard, key: string, now: nat)
    requires Unique(s)
    ensures Unique(Looked(s, key, now))
    ensures forall n :: n in Looked(s, key, now) ==> n in s && (n.key == key ==> Fresh(n.entry, now))
    ensures forall n :: n in s && (n.key == key ==> Fresh(n.entry, now)) ==> n in Looked(s, key, now)
  {
    RemoveMembers(s, key);
    FindIsNode(s, key);
    if Find(s, key).Some? {
      UniqueCons(Node(key, Find(s, key).value), Remove(s, key));
    }
    forall n | n in s && n.key == key ensures Find(s, key) == Some(n.entry) { FindUnique(s, n); }
  }

  lemma BackedStep(route: Router, capacity: nat, i: nat, s: Shard, m: map<string, Entry>, c: Call)
    requires Backed(route, i, s, m)
    ensures Backed(route, i, OnShard(route, capacity, i, s, c), Recorded(m, c))
  {
    hide Put, Looked, Remove, Unexpired;
    match c.event {
      case Set(key, result, ttl) => PutMembers(capacity, s, key, Entry(result, c.now, ttl));
      case Get(key) => LookedMembers(s, key, c.now);
      case Invalidate(key) => RemoveMembers(s, key);
      case Clear =>
      case Cleanup => UnexpiredMembers(s, c.now);
    }
  }

  lemma NothingBacked(route: Router, i: nat)
    ensures Backed(route, i, [], map[])
  {
  }

  lemma {:induction false} TraceBacked(route: Router, capacity: nat, i: nat, calls: seq<Call>)
    ensures Backed(route, i, After(route, capacity, i, calls), Reference(calls))
  {
    hide Backed, OnShard, Recorded;
    if calls == [] {
      NothingBacked(route, i);
    } else {
      var init, call := calls[..|calls| - 1], calls[|calls| - 1];
      TraceBacked(route, capacity, i, init);
      BackedStep(route, capacity, i, After(route, capacity, i, init), Reference(init), call);
    }
  }

  /** Call `i` sets `key`, and no later call sets it again, invalidates it or clears. */
  ghost predicate LastSet(calls: seq<Call>, key: string, i: nat) {
    i < |calls| && calls[i].event.Set? && calls[i].event.key == key &&
    forall j :: i < j < |calls| ==>
      !calls[j].event.Clear? && (calls[j].event.Set? || calls[j].event.Invalidate? ==> calls[j].event.key != key)
  }

  /** The entry that call `i` sets is younger than its ttl; under a clock that went back its
      age counts as zero. */
  predicate Alive(calls: seq<Call>, i: nat, now: nat)
    requires i < |calls| && calls[i].event.Set?
  {
    calls[i].event.ttl > 0 && now < calls[i].now + calls[i].event.ttl
  }

  lemma {:induction false} LastSetIsReference(calls: seq<Call>, key: string, i: nat)
    requires LastSet(calls, key, i)
    ensures key in Reference(calls)
    ensures Reference(calls)[key] == Entry(calls[i].event.result, calls[i].now, calls[i].event.ttl)
  {
    if i < |calls| - 1 {
      LastSetIsReference(calls[..|calls| - 1], key, i);
      assert !calls[|calls| - 1].event.Clear?;
    }
  }

  lemma {:induction false} ReferenceIsLastSet(calls: seq<Call>, key: string) returns (i: nat)
    requires key in Reference(calls)
    ensures LastSet(calls, key, i)
    ensures Reference(calls)[key] == Entry(calls[i].event.result, calls[i].now, calls[i].event.ttl)
  {
    var n := |calls| - 1;
    if calls[n].event.Set? && calls[n].event.key == key {
      i := n;
    } else {
      i := ReferenceIsLastSet(calls[..n], key);
      assert forall j :: i < j < n ==> calls[..n][j] == calls[j];
    }
  }

  lemma FreshIsAlive(calls: seq<Call>, i: nat, now: nat)
    requires i < |calls| && calls[i].event.Set?
    ensures Fresh(Entry(calls[i].event.result, calls[i].now, calls[i].event.ttl), now) <==> Alive(calls, i, now)
  {
  }

  /** Call `i` explains an answer at `now`: nothing undid it, it is younger than its ttl, and
      the answer is its result. */
  ghost predicate Explains(calls: seq<Call>, i: nat, key: string, now: nat, result: Json) {
    LastSet(calls, key, i) && calls[i].event.ttl > 0 && now < calls[i].now + calls[i].event.ttl &&
    result == calls[i].event.result
  }

  /** A hit is the value of the last `set` of the key, with no invalidation or clear since,
      and still younger than its ttl; whatever the clock did. */
  lemma HitIsLastSet(route: Router, maxEntries: nat, calls: seq<Call>, key: string, now: nat) returns (i: nat)
    requires Answer(route, maxEntries, calls, key, now).Some?
    ensures Explains(calls, i, key, now, Answer(route, maxEntries, calls, key, now).value)
  {
    var shard := After(route, PerShard(maxEntries), IndexOf(route, key), calls);
    TraceBacked(route, PerShard(maxEntries), IndexOf(route, key), calls);
    FindIsNode(shard, key);
    i := ReferenceIsLastSet(calls, key);
    hide After, Reference, LastSet, Find;
    FreshIsAlive(calls, i, now);
  }

  /** A cleanup keeps exactly the entries still younger than their ttl. */
  lemma CleanupKeepsAlive(route: Router, capacity: nat, i: nat, calls: seq<Call>, now: nat)
    requires capacity >= 1
    ensures forall n :: n in After(route, capacity, i, calls + [Call(Cleanup, now)]) <==>
      n in After(route, capacity, i, calls) && n.entry.ttl > 0 && now < n.entry.timestamp + n.entry.ttl
  {
    TraceIncluded(route, capacity, capacity, i, calls);
    UnexpiredMembers(After(route, capacity, i, calls), now);
    assert (calls + [Call(Cleanup, now)])[..|calls|] == calls;
  }

  // ---------------------------------------------------------------- what displacement takes

  /** The keys touched, in order: each `set`, and each `get` that hit. */
  function Touches(route: Router, capacity: nat, calls: seq<Call>): seq<string> {
    if calls == [] then []
    else
      var init, c := calls[..|calls| - 1], calls[|calls| - 1];
      Logged(Touches(route, capacity, init), Home(route, capacity, init, c), c)
  }

  /** The shard a look-up goes to. */
  function Home(route: Router, capacity: nat, calls: seq<Call>, c: Call): Shard {
    if c.event.Get? then After(route, capacity, IndexOf(route, c.event.key), calls) else []
  }

  /** The other keys of `key`'s shard touched since `key` was last touched. */
  function Others(route: Router, log: seq<string>, key: string): set<string> {
    if log == [] then {}
    else
      var last := log[|log| - 1];
      if last == key then {}
      else Others(route, log[..|log| - 1], key) + (if IndexOf(route, last) == IndexOf(route, key) then {last} else {})
  }

  lemma OthersStep(route: Router, log: seq<string>, x: string, key: string)
    ensures Others(route, log + [x], key) ==
      if x == key then {} else Others(route, log, key) + (if IndexOf(route, x) == IndexOf(route, key) then {x} else {})
  {
  }

  /** Everything ahead of a node was touched after it. */
  ghost predicate ByRecency(route: Router, s: Shard, log: seq<string>) {
    forall a, b :: 0 <= a < b < |s| ==> s[a].key in Others(route, log, s[b].key)
  }

  /** A key the map still holds fresh is stored, or was crowded out by a shard's worth of
      other keys. */
  ghost predicate Accounted(route: Router, capacity: nat, i: nat, s: Shard, m: map<string, Entry>,
                            log: seq<string>, now: nat) {
    forall k :: k in m && IndexOf(route, k) == i && Fresh(m[k], now) && !HasKey(s, k) ==>
      |Others(route, log, k)| >= capacity
  }

  lemma {:induction false} RemoveCuts(s: Shard, key: string) returns (p: nat)
    ensures Find(s, key).None? ==> Remove(s, key) == s
    ensures Find(s, key).Some? ==> p < |s| && Remove(s, key) == s[..p] + s[p + 1..]
  {
    p := 0;
    if s != [] && s[0].key != key {
      var q := RemoveCuts(s[1..], key);
      p := q + 1;
      if Find(s, key).Some? {
        assert s[..p] == [s[0]] + s[1..][..q] && s[p + 1..] == s[1..][q + 1..];
      } else {
        assert [s[0]] + s[1..] == s;
      }
    }
  }

  lemma RemoveByRecency(route: Router, s: Shard, log: seq<string>, key: string)
    requires ByRecency(route, s, log)
    ensures ByRecency(route, Remove(s, key), log)
  {
    var p := RemoveCuts(s, key);
    var r := Remove(s, key);
    forall a, b | 0 <= a < b < |r| ensures r[a].key in Others(route, log, r[b].key) {
      if Find(s, key).Some? {
        assert r[a] == s[if a < p then a else a + 1] && r[b] == s[if b < p then b else b + 1];
      }
    }
  }

  lemma {:induction false} UnexpiredByRecency(route: Router, s: Shard, log: seq<string>, now: nat)
    requires ByRecency(route, s, log)
    ensures ByRecency(route, Unexpired(s, now), log)
    ensures forall n :: n in Unexpired(s, now) ==> n in s
  {
    if s != [] {
      var t := s[1..];
      assert forall a, b :: 0 <= a < b < |t| ==> t[a] == s[a + 1] && t[b] == s[b + 1];
      UnexpiredByRecency(route, t, log, now);
      var u := Unexpired(t, now);
      var r := [s[0]] + u;
      forall b | 0 <= b < |u| ensures s[0].key in Others(route, log, u[b].key) {
        assert u[b] in t;
        var j :| 0 <= j < |t| && t[j] == u[b];
        assert s[j + 1] == u[b];
      }
    }
  }

  /** A touched node at the front, the rest in their order without its key. */
  lemma FrontByRecency(route: Router, rest: Shard, log: seq<string>, n: Node, i: nat)
    requires ByRecency(route, rest, log) && IndexOf(route, n.key) == i
    requires forall r :: r in rest ==> r.key != n.key && IndexOf(route, r.key) == i
    ensures ByRecency(route, [n] + rest, log + [n.key])
  {
    var s := [n] + rest;
    forall a, b | 0 <= a < b < |s| ensures s[a].key in Others(route, log + [n.key], s[b].key) {
      assert s[b] == rest[b - 1] && s[b] in rest;
      OthersStep(route, log, n.key, s[b].key);
      if a > 0 { assert s[a] == rest[a - 1]; }
    }
  }

  ghost function KeysOf(s: Shard): set<string> { set n | n in s :: n.key }

  lemma {:induction false} KeysCount(s: Shard)
    requires Unique(s)
    ensures |KeysOf(s)| == |s|
  {
    if s != [] {
      var t, n := s[..|s| - 1], s[|s| - 1];
      KeysCount(t);
      assert s == t + [n];
      assert KeysOf(s) == KeysOf(t) + {n.key};
      assert n.key !in KeysOf(t);
    }
  }

  lemma SubsetCount(a: set<string>, b: set<string>)
    requires a <= b
    ensures |a| <= |b|
  {
    assert b == a + (b - a);
  }

  /** The node a full shard gives up was crowded out by `capacity` distinct keys. */
  lemma DisplacedCount(route: Router, capacity: nat, s: Shard, log: seq<string>, key: string)
    requires Unique(s) && ByRecency(route, s, log) && |s| >= capacity >= 1
    requires Find(s, key).None? && IndexOf(route, key) == IndexOf(route, s[|s| - 1].key)
    ensures |Others(route, log + [key], s[|s| - 1].key)| >= capacity
  {
    var last := |s| - 1;
    var ahead := s[..last];
    FindIsNode(s, key);
    OthersStep(route, log, key, s[last].key);
    forall k | k in KeysOf(ahead) ensures k in Others(route, log, s[last].key) && k != key {
      var n :| n in ahead && n.key == k;
      var a :| 0 <= a < last && s[a] == n;
    }
    KeysCount(ahead);
    assert key !in KeysOf(ahead);
    SubsetCount(KeysOf(ahead) + {key}, Others(route, log + [key], s[last].key));
  }

  lemma FreshEarlier(e: Entry, now: nat, later: nat)
    requires now <= later && Fresh(e, later)
    ensures Fresh(e, now)
  {
  }

  ghost predicate Monotone(calls: seq<Call>) {
    forall i, j :: 0 <= i < j < |calls| ==> calls[i].now <= calls[j].now
  }

  function LastTime(calls: seq<Call>): nat { if calls == [] then 0 else calls[|calls| - 1].now }

  ghost predicate Recent(route: Router, capacity: nat, i: nat, s: Shard, m: map<string, Entry>,
                         log: seq<string>, now: nat) {
    Backed(route, i, s, m) && |s| <= capacity && ByRecency(route, s, log) &&
    Accounted(route, capacity, i, s, m, log, now)
  }

  lemma TouchKeepsCount(route: Router, log: seq<string>, x: string, k: string, capacity: nat)
    requires x != k && |Others(route, log, k)| >= capacity
    ensures |Others(route, log + [x], k)| >= capacity
  {
    OthersStep(route, log, x, k);
    SubsetCount(Others(route, log, k), Others(route, log + [x], k));
  }

  lemma SetRecent(route: Router, capacity: nat, i: nat, s: Shard, m: map<string, Entry>, log: seq<string>,
                  now: nat, later: nat, key: string, e: Entry)
    requires capacity >= 1 && now <= later && IndexOf(route, key) == i && Recent(route, capacity, i, s, m, log, now)
    ensures Recent(route, capacity, i, Put(capacity, s, key, e), m[key := e], log + [key], later)
  {
    var s', m', log' := Put(capacity, s, key, e), m[key := e], log + [key];
    var rest := Behind(capacity, s, key);
    BehindLacksKey(capacity, s, key);
    PutMembers(capacity, s, key, e);
    PutUnique(capacity, s, key, e);
    RemoveByRecency(route, s, log, key);
    FrontByRecency(route, rest, log, Node(key, e), i);
    assert s' == [Node(key, e)] + rest;
    forall k | k in m' && IndexOf(route, k) == i && Fresh(m'[k], later) && !HasKey(s', k)
      ensures |Others(route, log', k)| >= capacity
    {
      assert s'[0].key == key;
      FreshEarlier(m[k], now, later);
      if HasKey(s, k) {
        DisplacedIsLast(capacity, s, key, e, k);
        DisplacedCount(route, capacity, s, log, key);
      } else {
        TouchKeepsCount(route, log, key, k, capacity);
      }
    }
  }

  /** `put` keeps every other node, except the last one of a full list. */
  lemma BehindKeeps(capacity: nat, s: Shard, key: string, n: Node)
    requires Unique(s) && n in s && n.key != key
    ensures n in Behind(capacity, s, key) || (Find(s, key).None? && |s| >= capacity && n == s[|s| - 1])
  {
    hide Unique, Find, Remove;
    RemoveMembers(s, key);
    if Find(s, key).None? {
      var j :| 0 <= j < |s| && s[j] == n;
      assert j < |s| - 1 ==> s[..|s| - 1][j] == n;
    }
  }

  lemma DisplacedIsLast(capacity: nat, s: Shard, key: string, e: Entry, k: string)
    requires Unique(s) && HasKey(s, k) && k != key && !HasKey(Put(capacity, s, key, e), k)
    ensures Find(s, key).None? && s != [] && |s| >= capacity && s[|s| - 1].key == k
  {
    hide Unique, Find, Remove;
    var s', rest := Put(capacity, s, key, e), Behind(capacity, s, key);
    assert s' == [Node(key, e)] + rest;
    var j :| 0 <= j < |s| && s[j].key == k;
    BehindKeeps(capacity, s, key, s[j]);
    KeptKey(rest, s', k);
  }

  lemma KeptKey(s: Shard, s': Shard, k: string)
    requires forall n :: n in s && n.key == k ==> n in s'
    ensures HasKey(s, k) ==> HasKey(s', k)
  {
    if HasKey(s, k) {
      var j :| 0 <= j < |s| && s[j].key == k;
      assert s[j] in s';
    }
  }

  lemma GetRecent(route: Router, capacity: nat, i: nat, s: Shard, m: map<string, Entry>, log: seq<string>,
                  now: nat, later: nat, key: string)
    requires now <= later && IndexOf(route, key) == i && Recent(route, capacity, i, s, m, log, now)
    ensures Recent(route, capacity, i, Looked(s, key, later), m,
                   if Hit(s, key, later).Some? then log + [key] else log, later)
  {
    var s', hit := Looked(s, key, later), Hit(s, key, later).Some?;
    var log' := if hit then log + [key] else log;
    LookedMembers(s, key, later);
    RemoveMembers(s, key);
    RemoveByRecency(route, s, log, key);
    FindIsNode(s, key);
    if hit { FrontByRecency(route, Remove(s, key), log, Node(key, Find(s, key).value), i); }
    forall k | k in m && IndexOf(route, k) == i && Fresh(m[k], later) && !HasKey(s', k)
      ensures |Others(route, log', k)| >= capacity
    {
      FreshEarlier(m[k], now, later);
      KeptKey(s, s', k);
      if hit { TouchKeepsCount(route, log, key, k, capacity); }
    }
  }

  /** Dropping nodes whose keys the new map does not hold fresh. */
  lemma DropRecent(route: Router, capacity: nat, i: nat, s: Shard, m: map<string, Entry>, log: seq<string>,
                   now: nat, later: nat, s': Shard, m': map<string, Entry>)
    requires now <= later && Recent(route, capacity, i, s, m, log, now)
    requires Backed(route, i, s', m') && |s'| <= |s| && ByRecency(route, s', log)
    requires forall k :: k in m' ==> k in m && m'[k] == m[k]
    requires forall n :: n in s && n.key in m' && Fresh(n.entry, later) ==> n in s'
    ensures Recent(route, capacity, i, s', m', log, later)
  {
    forall k | k in m' && IndexOf(route, k) == i && Fresh(m'[k], later) && !HasKey(s', k)
      ensures |Others(route, log, k)| >= capacity
    {
      FreshEarlier(m[k], now, later);
      KeptKey(s, s', k);
    }
  }

  /** A call routed elsewhere. */
  lemma ElsewhereRecent(route: Router, capacity: nat, i: nat, s: Shard, m: map<string, Entry>, log: seq<string>,
                        now: nat, later: nat, m': map<string, Entry>, log': seq<string>, key: string)
    requires now <= later && IndexOf(route, key) != i && Recent(route, capacity, i, s, m, log, now)
    requires forall k :: k != key ==> (k in m' <==> k in m) && (k in m ==> m'[k] == m[k])
    requires log' == log || log' == log + [key]
    ensures Recent(route, capacity, i, s, m', log', later)
  {
    forall k | IndexOf(route, k) == i ensures Others(route, log', k) == Others(route, log, k) {
      OthersStep(route, log, key, k);
    }
    forall a, b | 0 <= a < b < |s| ensures s[a].key in Others(route, log', s[b].key) {
      assert s[b] in s;
    }
    forall k | k in m' && IndexOf(route, k) == i && Fresh(m'[k], later) && !HasKey(s, k)
      ensures |Others(route, log', k)| >= capacity
    {
      FreshEarlier(m[k], now, later);
    }
  }

  /** The touch log after one more call; `s` is the shard the call goes to. */
  function Logged(log: seq<string>, s: Shard, c: Call): seq<string> {
    match c.event
    case Set(key, _, _) => log + [key]
    case Get(key) => if Hit(s, key, c.now).Some? then log + [key] else log
    case _ => log
  }

  lemma RecentStep(route: Router, capacity: nat, i: nat, s: Shard, m: map<string, Entry>, log: seq<string>,
                   now: nat, c: Call, home: Shard)
    requires capacity >= 1 && now <= c.now && Recent(route, capacity, i, s, m, log, now)
    requires (c.event.Get? && IndexOf(route, c.event.key) == i) ==> home == s
    ensures Recent(route, capacity, i, OnShard(route, capacity, i, s, c), Recorded(m, c), Logged(log, home, c), c.now)
  {
    hide Recent, Put, Looked, Others;
    var later := c.now;
    match c.event {
      case Set(key, result, ttl) =>
        var e := Entry(result, later, ttl);
        if IndexOf(route, key) == i {
          SetRecent(route, capacity, i, s, m, log, now, later, key, e);
        } else {
          ElsewhereRecent(route, capacity, i, s, m, log, now, later, m[key := e], log + [key], key);
        }
      case Get(key) =>
        if IndexOf(route, key) == i {
          GetRecent(route, capacity, i, s, m, log, now, later, key);
        } else {
          ElsewhereRecent(route, capacity, i, s, m, log, now, later, m, Logged(log, home, c), key);
        }
      case Invalidate(key) =>
        if IndexOf(route, key) == i {
          RemoveRecent(route, capacity, i, s, m, log, now, later, key);
        } else {
          ElsewhereRecent(route, capacity, i, s, m, log, now, later, m - {key}, log, key);
        }
      case Clear => ClearRecent(route, capacity, i, s, m, log, now, later);
      case Cleanup => CleanupRecent(route, capacity, i, s, m, log, now, later);
    }
  }

  lemma RemoveRecent(route: Router, capacity: nat, i: nat, s: Shard, m: map<string, Entry>, log: seq<string>,
                     now: nat, later: nat, key: string)
    requires now <= later && Recent(route, capacity, i, s, m, log, now)
    ensures Recent(route, capacity, i, Remove(s, key), m - {key}, log, later)
  {
    RemoveMembers(s, key);
    RemoveByRecency(route, s, log, key);
    DropRecent(route, capacity, i, s, m, log, now, later, Remove(s, key), m - {key});
  }

  lemma ClearRecent(route: Router, capacity: nat, i: nat, s: Shard, m: map<string, Entry>, log: seq<string>,
                    now: nat, later: nat)
    requires now <= later && Recent(route, capacity, i, s, m, log, now)
    ensures Recent(route, capacity, i, [], map[], log, later)
  {
  }

  lemma CleanupRecent(route: Router, capacity: nat, i: nat, s: Shard, m: map<string, Entry>, log: seq<string>,
                      now: nat, later: nat)
    requires now <= later && Recent(route, capacity, i, s, m, log, now)
    ensures Recent(route, capacity, i, Unexpired(s, later), m, log, later)
  {
    UnexpiredMembers(s, later);
    UnexpiredByRecency(route, s, log, later);
    DropRecent(route, capacity, i, s, m, log, now, later, Unexpired(s, later), m);
  }

  lemma {:induction false} TraceRecent(route: Router, capacity: nat, i: nat, calls: seq<Call>)
    requires capacity >= 1 && Monotone(calls)
    ensures Recent(route, capacity, i, After(route, capacity, i, calls), Reference(calls),
                   Touches(route, capacity, calls), LastTime(calls))
  {
    if calls != [] {
      var init, c := calls[..|calls| - 1], calls[|calls| - 1];
      TraceRecent(route, capacity, i, init);
      hide Recent, OnShard, Recorded;
      RecentStep(route, capacity, i, After(route, capacity, i, init), Reference(init), Touches(route, capacity, init),
                 LastTime(init), c, Home(route, capacity, init, c));
    }
  }

  /** With a clock that does not go back, the last value set for a key, while younger than
      its ttl, is lost only after at least per-shard-capacity distinct other keys of its shard
      were touched since its last touch: with fewer, `get` still answers it. */
  lemma DisplacementNeedsCapacity(route: Router, maxEntries: nat, calls: seq<Call>, key: string, now: nat, last: nat)
    requires Monotone(calls) && LastTime(calls) <= now
    requires LastSet(calls, key, last) && calls[last].event.ttl > 0 && now < calls[last].now + calls[last].event.ttl
    requires |Others(route, Touches(route, PerShard(maxEntries), calls), key)| < PerShard(maxEntries)
    ensures Answer(route, maxEntries, calls, key, now) == Some(calls[last].event.result)
  {
    var i, capacity := IndexOf(route, key), PerShard(maxEntries);
    var s := After(route, capacity, i, calls);
    LastSetIsReference(calls, key, last);
    FreshIsAlive(calls, last, now);
    TraceRecent(route, capacity, i, calls);
    FreshEarlier(Reference(calls)[key], LastTime(calls), now);
    assert HasKey(s, key);
    FindIsNode(s, key);
  }
}
