/** The struct of src/dedup.rs, each call proved to do to every shard what the trace
    model says. */
module RequestDeduplicators {
  import opened Wrappers
  import opened JsonValues
  import opened LruShards
  import opened Deduplicators
  import opened DedupKeys

  class RequestDeduplicator {
    const maxEntries: nat
    const shards: array<Shard>
    /** Every call made so far. */
    ghost var calls: seq<Call>

    /** Each shard is what the trace of all calls makes it. */
    ghost predicate Valid()
      reads this, shards
    {
      shards.Length == NUM_SHARDS &&
      forall i :: 0 <= i < NUM_SHARDS ==> shards[i] == After(ShardIndex, PerShard(maxEntries), i, calls)
    }

    constructor (maxEntries: nat)
      ensures Valid() && fresh(shards) && this.maxEntries == maxEntries && calls == []
    {
      this.maxEntries := maxEntries;
      shards := new Shard[NUM_SHARDS](_ => []);
      calls := [];
    }

    /** Appends a call whose effect on every shard is already in place. */
    ghost method Record(call: Call, before: seq<Shard>)
      requires shards.Length == |before| == NUM_SHARDS
      requires forall i :: 0 <= i < NUM_SHARDS ==> before[i] == After(ShardIndex, PerShard(maxEntries), i, calls)
      requires forall i :: 0 <= i < NUM_SHARDS ==>
        shards[i] == OnShard(ShardIndex, PerShard(maxEntries), i, before[i], call)
      modifies this`calls
      ensures Valid() && calls == old(calls) + [call]
    {
      hide OnShard;
      calls := calls + [call];
      assert calls[..|calls| - 1] == old(calls);
    }

    lemma HomeIsUnique(calls: seq<Call>, key: string)
      ensures Unique(After(ShardIndex, PerShard(maxEntries), ShardIndex(key), calls))
    {
      TraceBacked(ShardIndex, PerShard(maxEntries), ShardIndex(key), calls);
    }

    method Get(key: string, now: nat) returns (result: Option<Json>)
      requires Valid()
      modifies shards, this`calls
      ensures Valid() && calls == old(calls) + [Call(Event.Get(key), now)]
      ensures result == Answer(ShardIndex, maxEntries, old(calls), key, now)
      ensures var home := ShardIndex(key);
              (forall i :: 0 <= i < 16 && i != home ==> shards[i] == old(shards[i])) &&
              (result.Some? ==> multiset(shards[home]) == multiset(old(shards[home])) && shards[home][0].key == key) &&
              (result.None? ==> forall n :: n in shards[home] <==> n in old(shards[home]) && n.key != key)
      ensures result.Some? ==> exists i: nat :: Explains(old(calls), i, key, now, result.value)
    {
      hide Fnv, Utf8, Remove, Find, After, Explains, Unique, Fresh;
      if Answer(ShardIndex, maxEntries, calls, key, now).Some? {
        ghost var i := HitIsLastSet(ShardIndex, maxEntries, calls, key, now);
      }
      HomeIsUnique(calls, key);
      LookedMoves(shards[ShardIndex(key)], key, now);
      ghost var before := shards[..];
      var index := ShardIndex(key);
      var cache := shards[index];
      var entry := Find(cache, key);
      if entry.Some? && Fresh(entry.value, now) {
        shards[index] := [Node(key, entry.value)] + Remove(cache, key);
        result := Some(entry.value.result);
      } else {
        shards[index] := Remove(cache, key);
        result := None;
      }
      Record(Call(Event.Get(key), now), before);
    }

    method Set(key: string, result: Json, ttl: nat, now: nat)
      requires Valid()
      modifies shards, this`calls
      ensures Valid() && calls == old(calls) + [Call(Event.Set(key, result, ttl), now)]
      ensures var home := ShardIndex(key);
              (forall i :: 0 <= i < 16 && i != home ==> shards[i] == old(shards[i])) &&
              shards[home] != [] && shards[home][0] == Node(key, Entry(result, now, ttl)) &&
              forall n :: n in shards[home][1..] ==> n in old(shards[home]) && n.key != key
    {
      hide Fnv, Utf8, Put, After;
      HomeIsUnique(calls, key);
      PutInFront(PerShard(maxEntries), shards[ShardIndex(key)], key, Entry(result, now, ttl));
      ghost var before := shards[..];
      var index := ShardIndex(key);
      shards[index] := Put(PerShard(maxEntries), shards[index], key, Entry(result, now, ttl));
      Record(Call(Event.Set(key, result, ttl), now), before);
    }

    method Invalidate(key: string, ghost now: nat)
      requires Valid()
      modifies shards, this`calls
      ensures Valid() && calls == old(calls) + [Call(Event.Invalidate(key), now)]
      ensures var home := ShardIndex(key);
              (forall i :: 0 <= i < 16 && i != home ==> shards[i] == old(shards[i])) &&
              forall n :: n in shards[home] <==> n in old(shards[home]) && n.key != key
    {
      hide Fnv, Utf8, Remove, After;
      HomeIsUnique(calls, key);
      RemoveMembers(shards[ShardIndex(key)], key);
      ghost var before := shards[..];
      var index := ShardIndex(key);
      shards[index] := Remove(shards[index], key);
      Record(Call(Event.Invalidate(key), now), before);
    }

    method Clear(ghost now: nat)
      requires Valid()
      modifies shards, this`calls
      ensures Valid() && calls == old(calls) + [Call(Event.Clear, now)]
      ensures forall i :: 0 <= i < 16 ==> shards[i] == []
    {
      ghost var before := shards[..];
      for i := 0 to NUM_SHARDS
        invariant calls == old(calls)
        invariant forall j :: 0 <= j < i ==> shards[j] == []
      {
        shards[i] := [];
      }
      Record(Call(Event.Clear, now), before);
    }

    /** Collects the expired keys of one shard, then pops them one by one. */
    static method Sweep(cache: Shard, now: nat) returns (swept: Shard)
      requires Unique(cache)
      ensures swept == Unexpired(cache, now)
    {
      var expired: seq<string> := [];
      for i := 0 to |cache|
        invariant expired == ExpiredKeys(cache[..i], now)
      {
        ExpiredSnoc(cache[..i], cache[i], now);
        assert cache[..i + 1] == cache[..i] + [cache[i]];
        if !Fresh(cache[i].entry, now) {
          expired := expired + [cache[i].key];
        }
      }
      assert cache[..|cache|] == cache;
      swept := cache;
      for i := 0 to |expired|
        invariant swept == RemoveAll(cache, expired[..i])
      {
        RemoveAllSnoc(cache, expired[..i], expired[i]);
        assert expired[..i + 1] == expired[..i] + [expired[i]];
        swept := Remove(swept, expired[i]);
      }
      assert expired[..|expired|] == expired;
      SweepIsFilter(cache, now);
    }

    method CleanupExpired(now: nat)
      requires Valid()
      modifies shards, this`calls
      ensures Valid() && calls == old(calls) + [Call(Event.Cleanup, now)]
      ensures forall i, n :: 0 <= i < 16 ==>
        (n in shards[i] <==> n in old(shards[i]) && n.entry.ttl > 0 && now < n.entry.timestamp + n.entry.ttl)
    {
      hide After, Unexpired;
      ghost var before := shards[..];
      for i := 0 to NUM_SHARDS
        invariant calls == old(calls)
        invariant forall j :: 0 <= j < i ==> shards[j] == Unexpired(before[j], now)
        invariant forall j :: i <= j < NUM_SHARDS ==> shards[j] == before[j]
      {
        TraceIncluded(ShardIndex, PerShard(maxEntries), PerShard(maxEntries), i, calls);
        var swept := Sweep(shards[i], now);
        shards[i] := swept;
      }
      ghost var trace := calls;
      Record(Call(Event.Cleanup, now), before);
      forall i | 0 <= i < 16
        ensures forall n :: n in shards[i] <==> n in before[i] && n.entry.ttl > 0 && now < n.entry.timestamp + n.entry.ttl
      {
        CleanupKeepsAlive(ShardIndex, PerShard(maxEntries), i, trace, now);
      }
    }

    method Size() returns (n: nat)
      requires Valid()
      ensures n == TotalSize(ShardIndex, PerShard(maxEntries), calls, NUM_SHARDS)
    {
      hide After;
      n := 0;
      for i := 0 to NUM_SHARDS
        invariant n == TotalSize(ShardIndex, PerShard(maxEntries), calls, i)
      {
        n := n + |shards[i]|;
      }
    }
  }

  /** A look-up only reorders a shard, the found node to the front, or takes the key out. */
  lemma LookedMoves(s: Shard, key: string, now: nat)
    requires Unique(s)
    ensures var e := Find(s, key);
            if e.Some? && Fresh(e.value, now) then multiset([Node(key, e.value)] + Remove(s, key)) == multiset(s)
            else forall n :: n in Remove(s, key) <==> n in s && n.key != key
  {
    RemoveMembers(s, key);
    var p := RemoveCuts(s, key);
    hide Find, Remove, Unique;
    if Find(s, key).Some? {
      FoundAtCut(s, key, p);
      var n := Node(key, Find(s, key).value);
      assert s == s[..p] + [n] + s[p + 1..];
      assert [n] + Remove(s, key) == [n] + (s[..p] + s[p + 1..]);
    }
  }

  lemma FoundAtCut(s: Shard, key: string, p: nat)
    requires Unique(s) && Find(s, key).Some? && p < |s| && Remove(s, key) == s[..p] + s[p + 1..]
    ensures s[p] == Node(key, Find(s, key).value)
  {
    RemoveMembers(s, key);
    FindIsNode(s, key);
    var n := Node(key, Find(s, key).value);
    assert s == s[..p] + [s[p]] + s[p + 1..];
    assert n !in Remove(s, key);
  }

  lemma PutInFront(capacity: nat, s: Shard, key: string, e: Entry)
    requires Unique(s)
    ensures var r := Put(capacity, s, key, e);
            r != [] && r[0] == Node(key, e) && forall n :: n in r[1..] ==> n in s && n.key != key
  {
    PutMembers(capacity, s, key, e);
    var r := Put(capacity, s, key, e);
    hide Put;
    forall n | n in r[1..] ensures n in s && n.key != key {
      var j :| 0 <= j < |r| - 1 && r[1..][j] == n;
      assert r[j + 1] == n && n in r && r[0].key != r[j + 1].key;
    }
  }

  function ExpiredKeys(s: Shard, now: nat): seq<string> {
    if s == [] then []
    else (if Fresh(s[0].entry, now) then [] else [s[0].key]) + ExpiredKeys(s[1..], now)
  }

  function RemoveAll(s: Shard, keys: seq<string>): Shard
    decreases |keys|
  {
    if keys == [] then s else RemoveAll(Remove(s, keys[0]), keys[1..])
  }

  lemma {:induction false} ExpiredSnoc(s: Shard, n: Node, now: nat)
    ensures ExpiredKeys(s + [n], now) == ExpiredKeys(s, now) + (if Fresh(n.entry, now) then [] else [n.key])
  {
    if s == [] {
      assert s + [n] == [n];
    } else {
      ExpiredSnoc(s[1..], n, now);
      assert (s + [n])[1..] == s[1..] + [n];
    }
  }

  lemma {:induction false} RemoveAllSnoc(s: Shard, keys: seq<string>, k: string)
    ensures RemoveAll(s, keys + [k]) == Remove(RemoveAll(s, keys), k)
    decreases |keys|
  {
    if keys == [] {
      assert keys + [k] == [k];
    } else {
      RemoveAllSnoc(Remove(s, keys[0]), keys[1..], k);
      assert (keys + [k])[1..] == keys[1..] + [k];
    }
  }

  /** Removing keys that are not the first node's leaves that node in front. */
  lemma {:induction false} RemoveAllKeepsHead(n: Node, s: Shard, keys: seq<string>)
    requires n.key !in keys
    ensures RemoveAll([n] + s, keys) == [n] + RemoveAll(s, keys)
    decreases |keys|
  {
    if keys != [] {
      assert ([n] + s)[1..] == s;
      RemoveAllKeepsHead(n, Remove(s, keys[0]), keys[1..]);
    }
  }

  lemma {:induction false} ExpiredAreKeys(s: Shard, now: nat)
    ensures forall k :: k in ExpiredKeys(s, now) ==> HasKey(s, k)
  {
    if s != [] {
      ExpiredAreKeys(s[1..], now);
      forall k | k in ExpiredKeys(s, now) ensures HasKey(s, k) {
        if k == s[0].key {
        } else {
          assert k in ExpiredKeys(s[1..], now);
          var i :| 0 <= i < |s[1..]| && s[1..][i].key == k;
          assert s[i + 1].key == k;
        }
      }
    }
  }

  /** Popping the collected keys leaves exactly the unexpired nodes, in their order. */
  lemma {:induction false} SweepIsFilter(s: Shard, now: nat)
    requires Unique(s)
    ensures RemoveAll(s, ExpiredKeys(s, now)) == Unexpired(s, now)
  {
    if s != [] {
      var t := s[1..];
      SweepIsFilter(t, now);
      assert s == [s[0]] + t;
      if Fresh(s[0].entry, now) {
        ExpiredAreKeys(t, now);
        assert forall i :: 0 <= i < |t| ==> t[i] == s[i + 1];
        assert !HasKey(t, s[0].key);
        assert ExpiredKeys(s, now) == ExpiredKeys(t, now);
        RemoveAllKeepsHead(s[0], t, ExpiredKeys(t, now));
      } else {
        assert ExpiredKeys(s, now) == [s[0].key] + ExpiredKeys(t, now);
        assert Remove(s, s[0].key) == t;
        assert RemoveAll(s, ExpiredKeys(s, now)) == RemoveAll(t, ExpiredKeys(s, now)[1..]);
      }
    }
  }
}
