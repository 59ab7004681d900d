/** One shard of src/dedup.rs: an LRU list, most recently used first, whose entries expire. */
module LruShards {
  import opened Wrappers
  import opened JsonValues

  datatype Entry = Entry(result: Json, timestamp: nat, ttl: nat)

  datatype Node = Node(key: string, entry: Entry)

  type Shard = seq<Node>

  /** The saturating age test: an entry is valid while younger than its ttl. */
  predicate Fresh(e: Entry, now: nat) {
    (if now >= e.timestamp then now - e.timestamp else 0) < e.ttl
  }

  function Find(s: Shard, key: string): Option<Entry> {
    if s == [] then None
    else if s[0].key == key then Some(s[0].entry)
    else Find(s[1..], key)
  }

  function Remove(s: Shard, key: string): Shard {
    if s == [] then []
    else if s[0].key == key then s[1..]
    else [s[0]] + Remove(s[1..], key)
  }

  function Unexpired(s: Shard, now: nat): Shard {
    if s == [] then []
    else if Fresh(s[0].entry, now) then [s[0]] + Unexpired(s[1..], now)
    else Unexpired(s[1..], now)
  }

  /** `put`: a known key is refreshed, a new key displaces the last entry of a full list. */
  function Put(capacity: nat, s: Shard, key: string, e: Entry): Shard {
    if Find(s, key).Some? then [Node(key, e)] + Remove(s, key)
    else if |s| >= capacity && s != [] then [Node(key, e)] + s[..|s| - 1]
    else [Node(key, e)] + s
  }

  function Hit(s: Shard, key: string, now: nat): Option<Json> {
    match Find(s, key)
    case Some(e) => if Fresh(e, now) then Some(e.result) else None
    case None => None
  }

  /** `get` as it changes the list: promote a hit, pop everything else. */
  function Looked(s: Shard, key: string, now: nat): Shard {
    if Hit(s, key, now).Some? then [Node(key, Find(s, key).value)] + Remove(s, key) else Remove(s, key)
  }

  ghost predicate Unique(s: Shard) {
    forall i, j :: 0 <= i < j < |s| ==> s[i].key != s[j].key
  }

  ghost predicate HasKey(s: Shard, key: string) {
    exists i :: 0 <= i < |s| && s[i].key == key
  }

  lemma {:induction false} FindIsNode(s: Shard, key: string)
    ensures Find(s, key).Some? <==> HasKey(s, key)
    ensures Find(s, key).Some? ==> Node(key, Find(s, key).value) in s
  {
    if s != [] {
      FindIsNode(s[1..], key);
      if Find(s[1..], key).Some? {
        var i :| 0 <= i < |s[1..]| && s[1..][i].key == key;
        assert s[i + 1].key == key;
      }
      if HasKey(s, key) && s[0].key != key {
        var i :| 0 <= i < |s| && s[i].key == key;
        assert s[1..][i - 1].key == key;
      }
    }
  }

  lemma {:induction false} FindUnique(s: Shard, n: Node)
    requires Unique(s) && n in s
    ensures Find(s, n.key) == Some(n.entry)
  {
    if s[0] != n {
      var i :| 0 <= i < |s| && s[i] == n;
      assert s[1..][i - 1] == n;
      FindUnique(s[1..], n);
    }
  }

  lemma {:induction false} RemoveMembers(s: Shard, key: string)
    requires Unique(s)
    ensures Unique(Remove(s, key)) && |Remove(s, key)| == |s| - (if Find(s, key).Some? then 1 else 0)
    ensures forall n :: n in Remove(s, key) <==> n in s && n.key != key
    ensures Find(s, key).None? ==> Remove(s, key) == s
  {
    if s != [] {
      var t := s[1..];
      assert s == [s[0]] + t;
      UniqueTail(s);
      hide Unique;
      RemoveMembers(t, key);
      if s[0].key != key { UniqueCons(s[0], Remove(t, key)); }
    }
  }

  lemma UniqueTail(s: Shard)
    requires Unique(s) && s != []
    ensures Unique(s[1..]) && forall n :: n in s[1..] ==> n.key != s[0].key
  {
  }

  lemma UniqueCons(n: Node, s: Shard)
    requires Unique(s) && forall m :: m in s ==> m.key != n.key
    ensures Unique([n] + s)
  {
  }

  lemma {:induction false} UnexpiredMembers(s: Shard, now: nat)
    requires Unique(s)
    ensures Unique(Unexpired(s, now)) && |Unexpired(s, now)| <= |s|
    ensures forall n :: n in Unexpired(s, now) <==> n in s && Fresh(n.entry, now)
  {
    if s != [] {
      var t := s[1..];
      assert s == [s[0]] + t;
      UnexpiredMembers(t, now);
      if Fresh(s[0].entry, now) {
        forall n | n in Unexpired(t, now) ensures n.key != s[0].key {
          var i :| 0 <= i < |t| && t[i] == n;
          assert s[i + 1] == n;
        }
        UniqueCons(s[0], Unexpired(t, now));
      }
    }
  }

  // ---------------------------------------------------------------- inclusion of lists

  /** `small` is `large` with some nodes left out, in the same order. */
  ghost predicate Within(small: Shard, large: Shard) {
    small == [] ||
    (large != [] &&
     ((small[0] == large[0] && Within(small[1..], large[1..])) || Within(small, large[1..])))
  }

  lemma {:induction false} WithinMember(small: Shard, large: Shard, n: Node)
    requires Within(small, large) && n in small
    ensures n in large
  {
    if small[0] == large[0] && Within(small[1..], large[1..]) {
      if n != small[0] {
        assert small == [small[0]] + small[1..];
        WithinMember(small[1..], large[1..], n);
      }
    } else {
      WithinMember(small, large[1..], n);
    }
  }

  lemma WithinFind(small: Shard, large: Shard, key: string)
    requires Within(small, large) && Unique(large) && Find(small, key).Some?
    ensures Find(large, key) == Find(small, key)
  {
    FindIsNode(small, key);
    WithinMember(small, large, Node(key, Find(small, key).value));
    FindUnique(large, Node(key, Find(small, key).value));
  }

  lemma WithinSkip(small: Shard, large: Shard, n: Node)
    requires Within(small, large)
    ensures Within(small, [n] + large)
  {
  }

  lemma WithinCons(small: Shard, large: Shard, n: Node)
    requires Within(small, large)
    ensures Within([n] + small, [n] + large)
  {
  }

  lemma {:induction false} WithinRemove(small: Shard, large: Shard, key: string)
    requires Within(small, large) && Unique(large)
    ensures Within(Remove(small, key), Remove(large, key))
  {
    if small != [] {
      if small[0] == large[0] && Within(small[1..], large[1..]) {
        if small[0].key != key {
          WithinRemove(small[1..], large[1..], key);
          WithinCons(Remove(small[1..], key), Remove(large[1..], key), small[0]);
        }
      } else {
        WithinRemove(small, large[1..], key);
        if large[0].key == key {
          FindIsNode(large[1..], key);
          RemoveMembers(large[1..], key);
        } else {
          WithinSkip(Remove(small, key), Remove(large[1..], key), large[0]);
        }
      }
    }
  }

  lemma {:induction false} WithinUnexpired(small: Shard, large: Shard, now: nat)
    requires Within(small, large)
    ensures Within(Unexpired(small, now), Unexpired(large, now))
    ensures |Unexpired(large, now)| - |Unexpired(small, now)| <= |large| - |small|
  {
    if small == [] {
      UnexpiredLength(large, now);
    } else if small[0] == large[0] && Within(small[1..], large[1..]) {
      WithinUnexpired(small[1..], large[1..], now);
      if Fresh(small[0].entry, now) {
        WithinCons(Unexpired(small[1..], now), Unexpired(large[1..], now), small[0]);
      }
    } else {
      WithinUnexpired(small, large[1..], now);
      if Fresh(large[0].entry, now) {
        WithinSkip(Unexpired(small, now), Unexpired(large[1..], now), large[0]);
      }
    }
  }

  lemma {:induction false} UnexpiredLength(s: Shard, now: nat)
    ensures |Unexpired(s, now)| <= |s|
  {
    if s != [] { UnexpiredLength(s[1..], now); }
  }

  lemma {:induction false} WithinDropSmall(small: Shard, large: Shard)
    requires Within(small, large) && small != []
    ensures Within(small[..|small| - 1], large)
  {
    if |small| > 1 {
      if small[0] == large[0] && Within(small[1..], large[1..]) {
        WithinDropSmall(small[1..], large[1..]);
        assert small[..|small| - 1][1..] == small[1..][..|small| - 2];
      } else {
        WithinDropSmall(small, large[1..]);
      }
    }
  }

  /** Both lists losing their last node keeps the inclusion, whichever nodes those are. */
  lemma {:induction false} WithinDropBoth(small: Shard, large: Shard)
    requires Within(small, large) && small != []
    ensures Within(small[..|small| - 1], large[..|large| - 1])
  {
    if |small| > 1 {
      if small[0] == large[0] && Within(small[1..], large[1..]) {
        WithinDropBoth(small[1..], large[1..]);
        assert small[..|small| - 1][1..] == small[1..][..|small| - 2];
        assert large[..|large| - 1][1..] == large[1..][..|large| - 2];
      } else {
        WithinDropBoth(small, large[1..]);
        assert large[..|large| - 1][1..] == large[1..][..|large| - 2];
      }
    }
  }

  // ---------------------------------------------------------------- two capacities, one trace

  /** A shard of capacity `c` and one of capacity `c'` that saw the same calls. */
  ghost predicate Included(c: nat, c': nat, small: Shard, large: Shard) {
    Unique(small) && Unique(large) && |small| <= c && |large| <= c' &&
    Within(small, large) && |large| - |small| <= c' - c
  }

  /** Removing a key keeps the inclusion and does not widen the gap. */
  lemma RemoveKeepsIncluded(c: nat, c': nat, small: Shard, large: Shard, key: string)
    requires Included(c, c', small, large)
    ensures Included(c, c', Remove(small, key), Remove(large, key))
  {
    RemoveMembers(small, key);
    RemoveMembers(large, key);
    WithinRemove(small, large, key);
    if Find(small, key).Some? { WithinFind(small, large, key); }
  }

  lemma UnexpiredKeepsIncluded(c: nat, c': nat, small: Shard, large: Shard, now: nat)
    requires Included(c, c', small, large)
    ensures Included(c, c', Unexpired(small, now), Unexpired(large, now))
  {
    UnexpiredMembers(small, now);
    UnexpiredMembers(large, now);
    WithinUnexpired(small, large, now);
  }

  /** What `put` leaves behind the refreshed node. */
  function Behind(capacity: nat, s: Shard, key: string): Shard {
    if Find(s, key).Some? then Remove(s, key)
    else if |s| >= capacity && s != [] then s[..|s| - 1]
    else s
  }

  lemma BehindLacksKey(capacity: nat, s: Shard, key: string)
    requires Unique(s)
    ensures Unique(Behind(capacity, s, key))
    ensures forall n :: n in Behind(capacity, s, key) ==> n in s && n.key != key
  {
    RemoveMembers(s, key);
    FindIsNode(s, key);
    forall n | n in Behind(capacity, s, key) ensures n in s && n.key != key {
      if Find(s, key).None? { assert n in s; }
    }
  }

  lemma PutUnique(capacity: nat, s: Shard, key: string, e: Entry)
    requires Unique(s) && capacity >= 1 && |s| <= capacity
    ensures Unique(Put(capacity, s, key, e)) && |Put(capacity, s, key, e)| <= capacity
  {
    BehindLacksKey(capacity, s, key);
    RemoveMembers(s, key);
    UniqueCons(Node(key, e), Behind(capacity, s, key));
  }

  lemma PutKeepsIncluded(c: nat, c': nat, small: Shard, large: Shard, key: string, e: Entry)
    requires 1 <= c <= c' && Included(c, c', small, large)
    ensures Included(c, c', Put(c, small, key, e), Put(c', large, key, e))
  {
    PutUnique(c, small, key, e);
    PutUnique(c', large, key, e);
    RemoveMembers(small, key);
    RemoveMembers(large, key);
    WithinRemove(small, large, key);
    if Find(small, key).Some? {
      WithinFind(small, large, key);
    } else if small != [] {
      WithinDropSmall(small, Remove(large, key));
      WithinDropBoth(small, large);
    }
    WithinCons(Behind(c, small, key), Behind(c', large, key), Node(key, e));
  }

  /** A hit in the small list is the same hit in the large one, and although a look-up may
      promote a node in one list only, the inclusion survives it. */
  lemma LookKeepsIncluded(c: nat, c': nat, small: Shard, large: Shard, key: string, now: nat)
    requires Included(c, c', small, large)
    ensures Hit(small, key, now).Some? ==> Hit(large, key, now) == Hit(small, key, now)
    ensures Included(c, c', Looked(small, key, now), Looked(large, key, now))
  {
    RemoveKeepsIncluded(c, c', small, large, key);
    RemoveMembers(small, key);
    RemoveMembers(large, key);
    if Hit(small, key, now).Some? {
      WithinFind(small, large, key);
      var n := Node(key, Find(small, key).value);
      WithinCons(Remove(small, key), Remove(large, key), n);
      UniqueCons(n, Remove(small, key));
      UniqueCons(n, Remove(large, key));
    } else if Hit(large, key, now).Some? {
      var n := Node(key, Find(large, key).value);
      if Find(small, key).Some? { WithinFind(small, large, key); }
      WithinSkip(Remove(small, key), Remove(large, key), n);
      UniqueCons(n, Remove(large, key));
    }
  }
}
