/** src/cache.rs over whole traces: a bounded map with expiring entries, against the same
    map without a bound. */
module TtlCaches {
  import opened Wrappers
  import opened JsonValues
  import opened CacheEvictions

  type Bytes = seq<bv8>

  datatype Stored<V> = Stored(value: V, timestamp: nat, ttl: nat)

  type ByteEntries = map<string, Stored<Bytes>>

  datatype State = State(data: Entries, bytes: ByteEntries, hits: nat, misses: nat, evictions: nat, insertions: nat)

  const EMPTY := State(map[], map[], 0, 0, 0, 0)

  /** A `Set` carries the key its eviction chose, if it came to that. */
  datatype Event =
    | Get(key: string)
    | Set(key: string, value: Json, ttl: nat, victim: Option<string>)
    | Remove(key: string)
    | Clear
    | Cleanup
    | GetBytes(key: string)
    | SetBytes(key: string, bytes: Bytes, ttl: nat, victim: Option<string>)
    | RemoveBytes(key: string)

  datatype Call = Call(event: Event, now: nat)

  function Lookup(s: State, key: string, now: nat): Option<Json> {
    if key in s.data && !Dead(s.data[key], now) then Some(s.data[key].data) else None
  }

  function LookupBytes(s: State, key: string, now: nat): Option<Bytes> {
    if key in s.bytes && !Expired(s.bytes[key].timestamp, s.bytes[key].ttl, now) then Some(s.bytes[key].value) else None
  }

  function Without<V>(m: map<string, V>, key: string): map<string, V> { m - {key} }

  function Read(s: State, key: string, now: nat): State {
    if Lookup(s, key, now).Some? then
      var e := s.data[key];
      s.(data := s.data[key := e.(lastAccess := now, accessCount := e.accessCount + 1)], hits := s.hits + 1)
    else s.(data := Without(s.data, key), misses := s.misses + 1)
  }

  function Evicted(s: State, victim: Option<string>): State {
    if victim.Some? && victim.value in s.data
    then s.(data := Without(s.data, victim.value), evictions := s.evictions + 1)
    else s
  }

  predicate MustEvict<V>(m: map<string, V>, maxSize: nat, key: string) { |m| >= maxSize && key !in m }

  function Written(maxSize: nat, s: State, key: string, value: Json, ttl: nat, victim: Option<string>, now: nat): State {
    var room := if MustEvict(s.data, maxSize, key) then Evicted(s, victim) else s;
    room.(data := room.data[key := CacheEntry(value, now, ttl, now, 0, room.insertions)],
          insertions := room.insertions + 1)
  }

  function Swept(data: Entries, now: nat): Entries {
    map k | k in data && !Dead(data[k], now) :: data[k]
  }

  function Next(maxSize: nat, s: State, c: Call): State {
    match c.event
    case Get(key) => Read(s, key, c.now)
    case Set(key, value, ttl, victim) => Written(maxSize, s, key, value, ttl, victim, c.now)
    case Remove(key) => s.(data := Without(s.data, key))
    case Clear => s.(data := map[])
    case Cleanup => s.(data := Swept(s.data, c.now))
    case GetBytes(key) =>
      if LookupBytes(s, key, c.now).Some? then s.(hits := s.hits + 1)
      else s.(bytes := Without(s.bytes, key), misses := s.misses + 1)
    case SetBytes(key, bytes, ttl, victim) =>
      var room := if MustEvict(s.bytes, maxSize, key) && victim.Some? then Without(s.bytes, victim.value) else s.bytes;
      s.(bytes := room[key := Stored(bytes, c.now, ttl)])
    case RemoveBytes(key) => s.(bytes := Without(s.bytes, key))
  }

  function Run(maxSize: nat, calls: seq<Call>): State {
    if calls == [] then EMPTY else Next(maxSize, Run(maxSize, calls[..|calls| - 1]), calls[|calls| - 1])
  }

  // ---------------------------------------------------------------- the unbounded maps

  datatype Reference = Reference(data: map<string, Stored<Json>>, bytes: ByteEntries)

  function Recorded(r: Reference, c: Call): Reference {
    match c.event
    case Set(key, value, ttl, _) => r.(data := r.data[key := Stored(value, c.now, ttl)])
    case Remove(key) => r.(data := r.data - {key})
    case Clear => r.(data := map[])
    case SetBytes(key, bytes, ttl, _) => r.(bytes := r.bytes[key := Stored(bytes, c.now, ttl)])
    case RemoveBytes(key) => r.(bytes := r.bytes - {key})
    case _ => r
  }

  function Truth(calls: seq<Call>): Reference {
    if calls == [] then Reference(map[], map[]) else Recorded(Truth(calls[..|calls| - 1]), calls[|calls| - 1])
  }

  /** What the unbounded map answers at `now`. */
  function Answer<V>(m: map<string, Stored<V>>, key: string, now: nat): Option<V> {
    if key in m && !Expired(m[key].timestamp, m[key].ttl, now) then Some(m[key].value) else None
  }

  function Core(e: CacheEntry): Stored<Json> { Stored(e.data, e.timestamp, e.ttl) }

  ghost predicate DataBacked(data: Entries, m: map<string, Stored<Json>>) {
    forall k :: k in data ==> k in m && m[k] == Core(data[k])
  }

  ghost predicate BytesBacked(bytes: ByteEntries, m: ByteEntries) {
    forall k :: k in bytes ==> k in m && m[k] == bytes[k]
  }

  /** Everything stored is the unbounded map's current entry for its key. */
  ghost predicate Backed(s: State, r: Reference) { DataBacked(s.data, r.data) && BytesBacked(s.bytes, r.bytes) }

  lemma StepData(maxSize: nat, s: State, r: Reference, c: Call)
    requires DataBacked(s.data, r.data)
    ensures DataBacked(Next(maxSize, s, c).data, Recorded(r, c).data)
  {
    if c.event.Get? {
      ReadBacked(s, r.data, c.event.key, c.now);
    } else if c.event.Set? {
      var e := c.event;
      WrittenBacked(maxSize, s, r.data, e.key, e.value, e.ttl, e.victim, c.now);
    } else {
      hide Dead, Expired, MustEvict, Read, Written;
    }
  }

  lemma ReadBacked(s: State, m: map<string, Stored<Json>>, key: string, now: nat)
    requires DataBacked(s.data, m)
    ensures DataBacked(Read(s, key, now).data, m)
  {
  }

  lemma WrittenBacked(maxSize: nat, s: State, m: map<string, Stored<Json>>, key: string, value: Json, ttl: nat,
                      victim: Option<string>, now: nat)
    requires DataBacked(s.data, m)
    ensures DataBacked(Written(maxSize, s, key, value, ttl, victim, now).data, m[key := Stored(value, now, ttl)])
  {
  }

  lemma StepBytes(maxSize: nat, s: State, r: Reference, c: Call)
    requires BytesBacked(s.bytes, r.bytes)
    ensures BytesBacked(Next(maxSize, s, c).bytes, Recorded(r, c).bytes)
  {
    hide Expired, Dead, MustEvict, Swept;
  }

  lemma StepBacked(maxSize: nat, s: State, r: Reference, c: Call)
    requires Backed(s, r)
    ensures Backed(Next(maxSize, s, c), Recorded(r, c))
  {
    hide DataBacked, BytesBacked, Next, Recorded;
    StepData(maxSize, s, r, c);
    StepBytes(maxSize, s, r, c);
  }

  lemma {:induction false} RunBacked(maxSize: nat, calls: seq<Call>)
    ensures Backed(Run(maxSize, calls), Truth(calls))
  {
    if calls != [] {
      RunBacked(maxSize, calls[..|calls| - 1]);
      hide Backed, Next, Recorded;
      StepBacked(maxSize, Run(maxSize, calls[..|calls| - 1]), Truth(calls[..|calls| - 1]), calls[|calls| - 1]);
    }
  }

  /** Whatever was evicted and whatever the clock did, a value found is the value the
      unbounded map holds for that key at that time; for both the JSON and the byte side. */
  lemma FoundIsTrue(maxSize: nat, calls: seq<Call>, key: string, now: nat)
    ensures var s, r := Run(maxSize, calls), Truth(calls);
            (Lookup(s, key, now).Some? ==> Answer(r.data, key, now) == Lookup(s, key, now)) &&
            (LookupBytes(s, key, now).Some? ==> Answer(r.bytes, key, now) == LookupBytes(s, key, now))
  {
    RunBacked(maxSize, calls);
  }

  /** Call `i` writes `key` on one side, and no later call writes, removes or clears it there. */
  ghost predicate LastWrite(calls: seq<Call>, key: string, i: nat) {
    i < |calls| && calls[i].event.Set? && calls[i].event.key == key &&
    forall j :: i < j < |calls| ==>
      !calls[j].event.Clear? && (calls[j].event.Set? || calls[j].event.Remove? ==> calls[j].event.key != key)
  }

  ghost predicate LastBytes(calls: seq<Call>, key: string, i: nat) {
    i < |calls| && calls[i].event.SetBytes? && calls[i].event.key == key &&
    forall j :: i < j < |calls| ==>
      (calls[j].event.SetBytes? || calls[j].event.RemoveBytes? ==> calls[j].event.key != key)
  }

  lemma {:induction false} TruthIsLastWrite(calls: seq<Call>, key: string) returns (i: nat)
    requires key in Truth(calls).data
    ensures LastWrite(calls, key, i)
    ensures Truth(calls).data[key] == Stored(calls[i].event.value, calls[i].now, calls[i].event.ttl)
  {
    var n := |calls| - 1;
    if calls[n].event.Set? && calls[n].event.key == key {
      i := n;
    } else {
      i := TruthIsLastWrite(calls[..n], key);
      assert forall j :: i < j < n ==> calls[..n][j] == calls[j];
    }
  }

  lemma {:induction false} TruthIsLastBytes(calls: seq<Call>, key: string) returns (i: nat)
    requires key in Truth(calls).bytes
    ensures LastBytes(calls, key, i)
    ensures Truth(calls).bytes[key] == Stored(calls[i].event.bytes, calls[i].now, calls[i].event.ttl)
  {
    var n := |calls| - 1;
    if calls[n].event.SetBytes? && calls[n].event.key == key {
      i := n;
    } else {
      i := TruthIsLastBytes(calls[..n], key);
      assert forall j :: i < j < n ==> calls[..n][j] == calls[j];
    }
  }

  /** A JSON value found is that of the last `set` of the key, not removed or cleared since,
      and at most its ttl old if the 64-bit clock did not go back. */
  lemma FoundIsLastWrite(maxSize: nat, calls: seq<Call>, key: string, now: nat) returns (i: nat)
    requires Lookup(Run(maxSize, calls), key, now).Some?
    ensures LastWrite(calls, key, i) && Lookup(Run(maxSize, calls), key, now) == Some(calls[i].event.value)
    ensures calls[i].now <= now < 0x1_0000_0000_0000_0000 ==> now <= calls[i].now + calls[i].event.ttl
  {
    RunBacked(maxSize, calls);
    i := TruthIsLastWrite(calls, key);
    hide Run, Truth, LastWrite, Expired;
    if calls[i].now <= now < 0x1_0000_0000_0000_0000 { AgeTest(calls[i].now, calls[i].event.ttl, now); }
  }

  /** The same for bytes. */
  lemma FoundIsLastBytes(maxSize: nat, calls: seq<Call>, key: string, now: nat) returns (i: nat)
    requires LookupBytes(Run(maxSize, calls), key, now).Some?
    ensures LastBytes(calls, key, i) && LookupBytes(Run(maxSize, calls), key, now) == Some(calls[i].event.bytes)
    ensures calls[i].now <= now < 0x1_0000_0000_0000_0000 ==> now <= calls[i].now + calls[i].event.ttl
  {
    RunBacked(maxSize, calls);
    i := TruthIsLastBytes(calls, key);
    hide Run, Truth, LastBytes, Expired;
    if calls[i].now <= now < 0x1_0000_0000_0000_0000 { AgeTest(calls[i].now, calls[i].event.ttl, now); }
  }

  // ---------------------------------------------------------------- exact without evictions

  /** Clock readings of a 64-bit clock that does not go back. */
  ghost predicate Monotone(calls: seq<Call>, now: nat) {
    now < TWO_64 && (forall i :: 0 <= i < |calls| ==> calls[i].now <= now) &&
    forall i, j :: 0 <= i < j < |calls| ==> calls[i].now <= calls[j].now
  }

  lemma ExpiryLasts(timestamp: nat, ttl: nat, now: nat, later: nat)
    requires timestamp <= now <= later < TWO_64
    ensures Expired(timestamp, ttl, now) ==> Expired(timestamp, ttl, later)
  {
  }

  /** Nothing alive is missing from what is stored, as long as nothing was evicted. */
  ghost predicate Complete<V>(intact: bool, stored: set<string>, m: map<string, Stored<V>>, now: nat) {
    (forall k :: k in m ==> m[k].timestamp <= now) &&
    (intact ==> forall k :: k in m && !Expired(m[k].timestamp, m[k].ttl, now) ==> k in stored)
  }

  lemma CompleteLater<V>(intact: bool, stored: set<string>, m: map<string, Stored<V>>, now: nat, later: nat)
    requires Complete(intact, stored, m, now) && now <= later < TWO_64
    ensures Complete(intact, stored, m, later)
  {
    forall k | k in m ensures Expired(m[k].timestamp, m[k].ttl, now) ==> Expired(m[k].timestamp, m[k].ttl, later) {
      ExpiryLasts(m[k].timestamp, m[k].ttl, now, later);
    }
  }

  ghost predicate DataComplete(s: State, r: Reference, now: nat) {
    Complete(s.evictions == 0, s.data.Keys, r.data, now)
  }

  lemma StepComplete(maxSize: nat, s: State, r: Reference, c: Call)
    requires Backed(s, r) && DataComplete(s, r, c.now)
    ensures DataComplete(Next(maxSize, s, c), Recorded(r, c), c.now)
  {
    hide Expired;
    if c.event.Get? {
      assert c.event.key in s.data ==> Core(s.data[c.event.key]) == r.data[c.event.key];
    }
  }

  /** The call makes the byte side drop a stored entry. */
  predicate DropsBytes(maxSize: nat, s: State, c: Call) {
    c.event.SetBytes? && MustEvict(s.bytes, maxSize, c.event.key) &&
    c.event.victim.Some? && c.event.victim.value in s.bytes
  }

  function ByteEvictions(maxSize: nat, calls: seq<Call>): nat {
    if calls == [] then 0
    else
      var init, c := calls[..|calls| - 1], calls[|calls| - 1];
      ByteEvictions(maxSize, init) + if DropsBytes(maxSize, Run(maxSize, init), c) then 1 else 0
  }

  lemma StepBytesComplete(maxSize: nat, s: State, r: Reference, c: Call, intact: bool)
    requires BytesBacked(s.bytes, r.bytes) && Complete(intact, s.bytes.Keys, r.bytes, c.now)
    ensures Complete(intact && !DropsBytes(maxSize, s, c), Next(maxSize, s, c).bytes.Keys, Recorded(r, c).bytes, c.now)
  {
    hide Expired, Dead, MustEvict, Swept;
  }

  lemma {:induction false} RunComplete(maxSize: nat, calls: seq<Call>, now: nat)
    requires Monotone(calls, now)
    ensures DataComplete(Run(maxSize, calls), Truth(calls), now)
    ensures Complete(ByteEvictions(maxSize, calls) == 0, Run(maxSize, calls).bytes.Keys, Truth(calls).bytes, now)
  {
    if calls != [] {
      var init, c := calls[..|calls| - 1], calls[|calls| - 1];
      var s, r, intact := Run(maxSize, init), Truth(init), ByteEvictions(maxSize, init) == 0;
      RunComplete(maxSize, init, c.now);
      RunBacked(maxSize, init);
      hide Complete, Next, Recorded, DropsBytes;
      StepComplete(maxSize, s, r, c);
      StepBytesComplete(maxSize, s, r, c, intact);
      CompleteLater(Next(maxSize, s, c).evictions == 0, Next(maxSize, s, c).data.Keys, Recorded(r, c).data, c.now, now);
      CompleteLater(intact && !DropsBytes(maxSize, s, c), Next(maxSize, s, c).bytes.Keys, Recorded(r, c).bytes, c.now, now);
    }
  }

  /** If nothing was evicted from a side, that side answers exactly as the unbounded map. */
  lemma ExactWithoutEvictions(maxSize: nat, calls: seq<Call>, key: string, now: nat)
    requires Monotone(calls, now)
    ensures Run(maxSize, calls).evictions == 0 ==>
      Lookup(Run(maxSize, calls), key, now) == Answer(Truth(calls).data, key, now)
    ensures ByteEvictions(maxSize, calls) == 0 ==>
      LookupBytes(Run(maxSize, calls), key, now) == Answer(Truth(calls).bytes, key, now)
  {
    RunBacked(maxSize, calls);
    RunComplete(maxSize, calls, now);
  }

  // ---------------------------------------------------------------- size

  /** Evictions name a key of the map whenever the map has one. */
  ghost predicate Evicts<V>(m: map<string, V>, victim: Option<string>) {
    m != map[] ==> victim.Some? && victim.value in m
  }

  ghost predicate Effective(maxSize: nat, calls: seq<Call>) {
    forall i :: 0 <= i < |calls| ==>
      var s, e := Run(maxSize, calls[..i]), calls[i].event;
      (e.Set? && MustEvict(s.data, maxSize, e.key) ==> Evicts(s.data, e.victim)) &&
      (e.SetBytes? && MustEvict(s.bytes, maxSize, e.key) ==> Evicts(s.bytes, e.victim))
  }

  function Bound(maxSize: nat): nat { if maxSize >= 1 then maxSize else 1 }

  lemma WithoutSize<V>(m: map<string, V>, key: string)
    ensures |Without(m, key)| == if key in m then |m| - 1 else |m|
  {
  }

  lemma UpdateSize<V>(m: map<string, V>, key: string, v: V)
    ensures |m[key := v]| == if key in m then |m| else |m| + 1
  {
  }

  lemma SweptSize(data: Entries, now: nat)
    ensures |Swept(data, now)| <= |data|
  {
    assert data.Keys == Swept(data, now).Keys + (data.Keys - Swept(data, now).Keys);
  }

  ghost predicate InBounds(maxSize: nat, s: State) {
    |s.data| <= Bound(maxSize) && |s.bytes| <= Bound(maxSize)
  }

  /** Room for one more: after a needed eviction the map is below its bound. */
  lemma InsertSize<V>(maxSize: nat, m: map<string, V>, key: string, v: V, victim: Option<string>)
    requires |m| <= Bound(maxSize) && (MustEvict(m, maxSize, key) ==> Evicts(m, victim))
    ensures var room := if MustEvict(m, maxSize, key) && victim.Some? then Without(m, victim.value) else m;
            |room[key := v]| <= Bound(maxSize)
  {
  }

  lemma StepInBounds(maxSize: nat, s: State, c: Call)
    requires InBounds(maxSize, s)
    requires c.event.Set? && MustEvict(s.data, maxSize, c.event.key) ==> Evicts(s.data, c.event.victim)
    requires c.event.SetBytes? && MustEvict(s.bytes, maxSize, c.event.key) ==> Evicts(s.bytes, c.event.victim)
    ensures InBounds(maxSize, Next(maxSize, s, c))
  {
    hide Without;
    match c.event {
      case Get(key) =>
        WithoutSize(s.data, key);
        if key in s.data {
          var e := s.data[key];
          UpdateSize(s.data, key, e.(lastAccess := c.now, accessCount := e.accessCount + 1));
        }
      case Set(key, value, ttl, victim) =>
        var e := CacheEntry(value, c.now, ttl, c.now, 0, s.insertions);
        InsertSize(maxSize, s.data, key, e, victim);
        if s.data == map[] { UpdateSize(s.data, key, e); }
      case Remove(key) => WithoutSize(s.data, key);
      case Clear =>
      case Cleanup => SweptSize(s.data, c.now);
      case GetBytes(key) => WithoutSize(s.bytes, key);
      case SetBytes(key, bytes, ttl, victim) => InsertSize(maxSize, s.bytes, key, Stored(bytes, c.now, ttl), victim);
      case RemoveBytes(key) => WithoutSize(s.bytes, key);
    }
  }

  /** Each of the two maps stays within max(1, max_size). */
  lemma {:induction false} RunInBounds(maxSize: nat, calls: seq<Call>)
    requires Effective(maxSize, calls)
    ensures InBounds(maxSize, Run(maxSize, calls))
  {
    if calls != [] {
      var init := calls[..|calls| - 1];
      forall i | 0 <= i < |init| ensures init[..i] == calls[..i] && init[i] == calls[i] { }
      RunInBounds(maxSize, init);
      hide InBounds, Next;
      StepInBounds(maxSize, Run(maxSize, init), calls[|calls| - 1]);
    }
  }

  // ---------------------------------------------------------------- one budget each

  lemma EffectiveSnoc(maxSize: nat, calls: seq<Call>, c: Call)
    requires Effective(maxSize, calls)
    requires c.event.Set? && MustEvict(Run(maxSize, calls).data, maxSize, c.event.key) ==>
      Evicts(Run(maxSize, calls).data, c.event.victim)
    requires c.event.SetBytes? && MustEvict(Run(maxSize, calls).bytes, maxSize, c.event.key) ==>
      Evicts(Run(maxSize, calls).bytes, c.event.victim)
    ensures Effective(maxSize, calls + [c]) && Run(maxSize, calls + [c]) == Next(maxSize, Run(maxSize, calls), c)
  {
    hide Next, MustEvict, Evicts;
    var all := calls + [c];
    assert all[..|calls|] == calls;
    forall i | 0 <= i < |calls| ensures all[..i] == calls[..i] && all[i] == calls[i] { }
  }

  predicate OnBytes(e: Event) { e.GetBytes? || e.SetBytes? || e.RemoveBytes? }

  /** The calls of one side. */
  function Side(calls: seq<Call>, bytes: bool): seq<Call> {
    if calls == [] then []
    else
      var init, c := Side(calls[..|calls| - 1], bytes), calls[|calls| - 1];
      if OnBytes(c.event) == bytes then init + [c] else init
  }

  lemma RunSnoc(maxSize: nat, calls: seq<Call>, c: Call)
    ensures Run(maxSize, calls + [c]) == Next(maxSize, Run(maxSize, calls), c)
  {
    assert (calls + [c])[..|calls|] == calls;
  }

  /** The sides share no budget and no entry: given what each eviction chose, either map is
      what its own calls alone would make it. So `Clear` and `Cleanup` leave the bytes. */
  lemma {:induction false} SidesAreIndependent(maxSize: nat, calls: seq<Call>)
    ensures Run(maxSize, calls).bytes == Run(maxSize, Side(calls, true)).bytes
    ensures var s, t := Run(maxSize, calls), Run(maxSize, Side(calls, false));
            s.data == t.data && s.evictions == t.evictions && s.insertions == t.insertions
  {
    if calls != [] {
      var init, c := calls[..|calls| - 1], calls[|calls| - 1];
      SidesAreIndependent(maxSize, init);
      hide Next;
      RunSnoc(maxSize, Side(init, true), c);
      RunSnoc(maxSize, Side(init, false), c);
      SideStep(maxSize, Run(maxSize, init), Run(maxSize, Side(init, true)), Run(maxSize, Side(init, false)), c);
    }
  }

  lemma SideStep(maxSize: nat, s: State, b: State, d: State, c: Call)
    requires s.bytes == b.bytes
    requires s.data == d.data && s.evictions == d.evictions && s.insertions == d.insertions
    ensures Next(maxSize, s, c).bytes == if OnBytes(c.event) then Next(maxSize, b, c).bytes else b.bytes
    ensures var s', d' := Next(maxSize, s, c), if OnBytes(c.event) then d else Next(maxSize, d, c);
            s'.data == d'.data && s'.evictions == d'.evictions && s'.insertions == d'.insertions
  {
    hide Dead, Expired, MustEvict, Swept;
  }

  /** The keys ever written on each side. */
  ghost predicate Writes(calls: seq<Call>, json: set<string>, bytes: set<string>) {
    forall i :: 0 <= i < |calls| ==>
      (calls[i].event.Set? ==> calls[i].event.key in json) && (calls[i].event.SetBytes? ==> calls[i].event.key in bytes)
  }

  lemma {:induction false} KeysWritten(maxSize: nat, calls: seq<Call>, json: set<string>, bytes: set<string>)
    requires Writes(calls, json, bytes)
    ensures Run(maxSize, calls).data.Keys <= json && Run(maxSize, calls).bytes.Keys <= bytes
  {
    if calls != [] {
      KeysWritten(maxSize, calls[..|calls| - 1], json, bytes);
      hide Next;
      StepKeys(maxSize, Run(maxSize, calls[..|calls| - 1]), calls[|calls| - 1]);
    }
  }

  lemma StepKeys(maxSize: nat, s: State, c: Call)
    ensures Next(maxSize, s, c).data.Keys <= s.data.Keys + (if c.event.Set? then {c.event.key} else {})
    ensures Next(maxSize, s, c).bytes.Keys <= s.bytes.Keys + (if c.event.SetBytes? then {c.event.key} else {})
  {
    hide Dead, Expired, MustEvict;
  }

  function Min(a: nat, b: nat): nat { if a <= b then a else b }

  lemma {:induction false} Pick(keys: set<string>, n: nat) returns (some: set<string>)
    requires n <= |keys|
    ensures some <= keys && |some| == n
  {
    if n == 0 {
      some := {};
    } else {
      some := Pick(keys, n - 1);
      assert keys == some + (keys - some);
      var k :| k in keys - some;
      some := some + {k};
    }
  }

  lemma FreeWrite(maxSize: nat, s: State, c: Call)
    requires (c.event.Set? || c.event.SetBytes?) && c.event.victim.None?
    ensures Next(maxSize, s, c).data.Keys == s.data.Keys + (if c.event.Set? then {c.event.key} else {})
    ensures Next(maxSize, s, c).bytes.Keys == s.bytes.Keys + (if c.event.SetBytes? then {c.event.key} else {})
  {
    hide Dead, Expired, MustEvict;
  }

  lemma Roomy<V>(maxSize: nat, m: map<string, V>, key: string)
    requires |m| < Bound(maxSize)
    ensures MustEvict(m, maxSize, key) ==> Evicts(m, None)
  {
  }

  lemma FillJson(maxSize: nat, init: seq<Call>, k: string) returns (calls: seq<Call>)
    requires Effective(maxSize, init) && |Run(maxSize, init).data| < Bound(maxSize)
    ensures Effective(maxSize, calls) && |calls| > 0 && calls[..|calls| - 1] == init
    ensures calls[|calls| - 1] == Call(Set(k, Null, 0, None), 0)
    ensures Run(maxSize, calls).data.Keys == Run(maxSize, init).data.Keys + {k}
    ensures Run(maxSize, calls).bytes.Keys == Run(maxSize, init).bytes.Keys
  {
    hide Effective, Run, MustEvict, Evicts, Next;
    var c := Call(Set(k, Null, 0, None), 0);
    Roomy(maxSize, Run(maxSize, init).data, k);
    EffectiveSnoc(maxSize, init, c);
    FreeWrite(maxSize, Run(maxSize, init), c);
    calls := init + [c];
  }

  lemma FillBytes(maxSize: nat, init: seq<Call>, k: string) returns (calls: seq<Call>)
    requires Effective(maxSize, init) && |Run(maxSize, init).bytes| < Bound(maxSize)
    ensures Effective(maxSize, calls) && |calls| > 0 && calls[..|calls| - 1] == init
    ensures calls[|calls| - 1] == Call(SetBytes(k, [], 0, None), 0)
    ensures Run(maxSize, calls).data.Keys == Run(maxSize, init).data.Keys
    ensures Run(maxSize, calls).bytes.Keys == Run(maxSize, init).bytes.Keys + {k}
  {
    hide Effective, Run, MustEvict, Evicts, Next;
    var c := Call(SetBytes(k, [], 0, None), 0);
    Roomy(maxSize, Run(maxSize, init).bytes, k);
    EffectiveSnoc(maxSize, init, c);
    FreeWrite(maxSize, Run(maxSize, init), c);
    calls := init + [c];
  }

  lemma WritesSnoc(init: seq<Call>, calls: seq<Call>, json: set<string>, bytes: set<string>)
    requires |calls| > 0 && calls[..|calls| - 1] == init && Writes(init, json, bytes)
    requires var e := calls[|calls| - 1].event; (e.Set? ==> e.key in json) && (e.SetBytes? ==> e.key in bytes)
    ensures Writes(calls, json, bytes)
  {
    assert forall i :: 0 <= i < |init| ==> calls[i] == init[i];
  }

  /** Both maps can be filled to their bounds by one run. */
  lemma {:induction false} Filled(maxSize: nat, json: set<string>, bytes: set<string>) returns (calls: seq<Call>)
    requires |json| <= Bound(maxSize) && |bytes| <= Bound(maxSize)
    ensures Effective(maxSize, calls) && Writes(calls, json, bytes)
    ensures Run(maxSize, calls).data.Keys == json && Run(maxSize, calls).bytes.Keys == bytes
    decreases |json| + |bytes|
  {
    hide Effective, Run, Bound;
    if bytes != {} {
      var k :| k in bytes;
      var init := Filled(maxSize, json, bytes - {k});
      KeyCount(Run(maxSize, init).bytes);
      calls := FillBytes(maxSize, init, k);
      WritesSnoc(init, calls, json, bytes);
    } else if json != {} {
      var k :| k in json;
      var init := Filled(maxSize, json - {k}, bytes);
      KeyCount(Run(maxSize, init).data);
      calls := FillJson(maxSize, init, k);
      WritesSnoc(init, calls, json, bytes);
    } else {
      calls := [];
      NothingCalled(maxSize);
    }
  }

  lemma KeyCount<V>(m: map<string, V>)
    ensures |m| == |m.Keys| && (m == map[] <==> m.Keys == {})
  {
  }

  lemma NothingCalled(maxSize: nat)
    ensures Effective(maxSize, []) && Run(maxSize, []) == EMPTY
  {
  }

  /** Both sides together stay within max(1, max_size), in every run that writes these keys,
      exactly when the keys of the two sides, each cut to that bound, add up to no more. */
  lemma BudgetSharedIff(maxSize: nat, json: set<string>, bytes: set<string>)
    ensures (forall calls :: Effective(maxSize, calls) && Writes(calls, json, bytes) ==>
               |Run(maxSize, calls).data| + |Run(maxSize, calls).bytes| <= Bound(maxSize)) <==>
            Min(|json|, Bound(maxSize)) + Min(|bytes|, Bound(maxSize)) <= Bound(maxSize)
  {
    hide Effective, Writes, Run;
    var bound := Bound(maxSize);
    forall calls | Effective(maxSize, calls) && Writes(calls, json, bytes)
      ensures |Run(maxSize, calls).data| <= Min(|json|, bound) && |Run(maxSize, calls).bytes| <= Min(|bytes|, bound)
    {
      var s := Run(maxSize, calls);
      RunInBounds(maxSize, calls);
      KeysWritten(maxSize, calls, json, bytes);
      SubsetSize(s.data.Keys, json);
      SubsetSize(s.bytes.Keys, bytes);
    }
    var calls := BothFull(maxSize, json, bytes);
  }

  /** In particular two full sides hold twice the bound, whatever `max_size` is. */
  lemma BothFull(maxSize: nat, json: set<string>, bytes: set<string>) returns (calls: seq<Call>)
    ensures Effective(maxSize, calls) && Writes(calls, json, bytes)
    ensures |Run(maxSize, calls).data| == Min(|json|, Bound(maxSize))
    ensures |Run(maxSize, calls).bytes| == Min(|bytes|, Bound(maxSize))
  {
    var j := Pick(json, Min(|json|, Bound(maxSize)));
    var b := Pick(bytes, Min(|bytes|, Bound(maxSize)));
    calls := Filled(maxSize, j, b);
    hide Run, Effective;
    var s := Run(maxSize, calls);
    KeyCount(s.data);
    KeyCount(s.bytes);
  }

  /** One JSON entry and one byte entry in a cache of one. */
  lemma TwoInACacheOfOne()
    ensures var calls := [Call(Set("a", Null, 60, None), 0), Call(SetBytes("b", [], 60, None), 0)];
            Effective(1, calls) && |Run(1, calls).data| + |Run(1, calls).bytes| == 2
  {
    var first, second := Call(Set("a", Null, 60, None), 0), Call(SetBytes("b", [], 60, None), 0);
    NothingCalled(1);
    EffectiveSnoc(1, [], first);
    EffectiveSnoc(1, [first], second);
    assert [] + [first] == [first] && [first] + [second] == [first, second];
  }

  // ---------------------------------------------------------------- what reading and writing do to eviction

  /** A hit at a time later than every other access makes the entry the last to go. */
  lemma HitProtects(s: State, key: string, now: nat)
    requires Lookup(s, key, now).Some?
    requires forall k :: k in s.data && k != key ==> s.data[k].lastAccess < now
    ensures var data := Read(s, key, now).data;
            key in data && forall k :: k in data && k != key ==> Precedes(data[k], data[key])
  {
  }

  /** A new entry goes before every entry that was ever read, and after every unread one
      last touched no later. */
  lemma NewcomerIsProbationary(maxSize: nat, s: State, key: string, value: Json, ttl: nat, victim: Option<string>, now: nat)
    requires Stamped(s)
    ensures var data := Written(maxSize, s, key, value, ttl, victim, now).data;
            key in data && forall k :: k in data && k != key ==>
              (data[k].accessCount > 0 ==> Precedes(data[key], data[k])) &&
              (data[k].accessCount == 0 && data[k].lastAccess <= now ==> Precedes(data[k], data[key]))
  {
  }

  function Lookups(calls: seq<Call>): nat {
    if calls == [] then 0
    else
      var e := calls[|calls| - 1].event;
      Lookups(calls[..|calls| - 1]) + if e.Get? || e.GetBytes? then 1 else 0
  }

  /** Every look-up of either side is one hit or one miss. */
  lemma {:induction false} HitsAndMisses(maxSize: nat, calls: seq<Call>)
    ensures Run(maxSize, calls).hits + Run(maxSize, calls).misses == Lookups(calls)
  {
    if calls != [] {
      HitsAndMisses(maxSize, calls[..|calls| - 1]);
      hide Lookup, LookupBytes, MustEvict, Swept;
    }
  }

  /** The look-ups that found something. */
  function Founds(maxSize: nat, calls: seq<Call>): nat {
    if calls == [] then 0
    else
      var init, c := calls[..|calls| - 1], calls[|calls| - 1];
      Founds(maxSize, init) +
      (if c.event.Get? && Lookup(Run(maxSize, init), c.event.key, c.now).Some? then 1
       else if c.event.GetBytes? && LookupBytes(Run(maxSize, init), c.event.key, c.now).Some? then 1
       else 0)
  }

  /** Hits count exactly the look-ups that found something, misses the others. */
  lemma {:induction false} HitsExact(maxSize: nat, calls: seq<Call>)
    ensures Run(maxSize, calls).hits == Founds(maxSize, calls)
    ensures Run(maxSize, calls).misses == Lookups(calls) - Founds(maxSize, calls)
  {
    HitsAndMisses(maxSize, calls);
    if calls != [] {
      HitsExact(maxSize, calls[..|calls| - 1]);
      hide Lookup, LookupBytes, MustEvict, Swept;
    }
  }

  // ---------------------------------------------------------------- who makes room

  /** A write to a stored key, or with room to spare, evicts nobody and changes no other key.
      Otherwise exactly the victim goes, if there is one. */
  lemma WriteMakesRoom(maxSize: nat, s: State, key: string, value: Json, ttl: nat, victim: Option<string>, now: nat)
    ensures var t, e := Written(maxSize, s, key, value, ttl, victim, now), CacheEntry(value, now, ttl, now, 0, s.insertions);
            t.bytes == s.bytes && t.insertions == s.insertions + 1 &&
            (key in s.data || |s.data| < maxSize ==> t.data == s.data[key := e] && t.evictions == s.evictions) &&
            (key !in s.data && |s.data| >= maxSize && victim.Some? && victim.value in s.data ==>
               t.data == (s.data - {victim.value})[key := e] && t.evictions == s.evictions + 1)
  {
  }

  lemma BytesMakeRoom(maxSize: nat, s: State, key: string, bytes: Bytes, ttl: nat, victim: Option<string>, now: nat)
    ensures var t, e := Next(maxSize, s, Call(SetBytes(key, bytes, ttl, victim), now)), Stored(bytes, now, ttl);
            t == s.(bytes := t.bytes) &&
            (key in s.bytes || |s.bytes| < maxSize ==> t.bytes == s.bytes[key := e]) &&
            (key !in s.bytes && |s.bytes| >= maxSize && victim.Some? ==>
               t.bytes == (s.bytes - {victim.value})[key := e])
  {
  }

  /** A look-up finds an entry at most its ttl old, counts a hit and the access; otherwise it
      drops the key and counts a miss. */
  lemma ReadMeans(s: State, key: string, now: nat)
    ensures var t, v := Read(s, key, now), Lookup(s, key, now);
            t.bytes == s.bytes && t.evictions == s.evictions && t.insertions == s.insertions &&
            (v.Some? ==>
               key in s.data && v.value == s.data[key].data && t.hits == s.hits + 1 && t.misses == s.misses &&
               t.data == s.data[key := s.data[key].(lastAccess := now, accessCount := s.data[key].accessCount + 1)]) &&
            (v.None? ==> t.hits == s.hits && t.misses == s.misses + 1 && t.data == s.data - {key}) &&
            (key in s.data && s.data[key].timestamp <= now < 0x1_0000_0000_0000_0000 ==>
               (v.Some? <==> now <= s.data[key].timestamp + s.data[key].ttl))
  {
    if key in s.data && s.data[key].timestamp <= now < TWO_64 { AgeTest(s.data[key].timestamp, s.data[key].ttl, now); }
    hide Expired;
  }

  // ---------------------------------------------------------------- insertion order

  ghost predicate Stamped(s: State) {
    DistinctInsertions(s.data) && forall k :: k in s.data ==> s.data[k].insertionOrder < s.insertions
  }

  lemma StepStamped(maxSize: nat, s: State, c: Call)
    requires Stamped(s)
    ensures Stamped(Next(maxSize, s, c))
  {
    hide Dead, Expired, MustEvict;
  }

  lemma {:induction false} RunStamped(maxSize: nat, calls: seq<Call>)
    ensures Stamped(Run(maxSize, calls))
  {
    if calls != [] {
      RunStamped(maxSize, calls[..|calls| - 1]);
      hide Stamped, Next;
      StepStamped(maxSize, Run(maxSize, calls[..|calls| - 1]), calls[|calls| - 1]);
    }
  }

  ghost predicate InsertedFirst(data: Entries, v: string) {
    v in data && forall k :: k in data ==> data[v].insertionOrder <= data[k].insertionOrder
  }

  /** The entry that a full cache gives up: the first in eviction order of the sampled live
      entries, or the first inserted when nothing is live. */
  ghost predicate Chosen(s: State, order: seq<string>, now: nat, victim: Option<string>) {
    var c := Candidates(s.data, order, now, 2 * SampleSize(s.hits, s.misses));
    if c != [] then victim.Some? && IsVictim(s.data, c, victim.value)
    else if s.data == map[] then victim.None?
    else victim.Some? && InsertedFirst(s.data, victim.value)
  }

  lemma ChosenEvicts(s: State, order: seq<string>, now: nat, victim: Option<string>)
    requires Chosen(s, order, now, victim)
    ensures Evicts(s.data, victim)
  {
  }

  class Cache {
    const maxSize: nat
    var data: Entries
    var bytesData: ByteEntries
    var hits: nat
    var misses: nat
    var evictions: nat
    var insertionCounter: nat
    /** Every call made so far. */
    ghost var calls: seq<Call>

    ghost function View(): State
      reads this
    {
      State(data, bytesData, hits, misses, evictions, insertionCounter)
    }

    ghost predicate Valid()
      reads this
    {
      View() == Run(maxSize, calls) && Effective(maxSize, calls)
    }

    constructor (maxSize: nat)
      ensures Valid() && calls == [] && this.maxSize == maxSize
    {
      this.maxSize := maxSize;
      data, bytesData := map[], map[];
      hits, misses, evictions, insertionCounter := 0, 0, 0, 0;
      calls := [];
    }

    ghost predicate Did(before: seq<Call>, c: Call)
      reads this
    {
      Valid() && calls == before + [c]
    }

    /** Appends a call whose effect is already in place. */
    ghost method Record(c: Call)
      requires View() == Next(maxSize, Run(maxSize, calls), c) && Effective(maxSize, calls)
      requires c.event.Set? && MustEvict(Run(maxSize, calls).data, maxSize, c.event.key) ==>
        Evicts(Run(maxSize, calls).data, c.event.victim)
      requires c.event.SetBytes? && MustEvict(Run(maxSize, calls).bytes, maxSize, c.event.key) ==>
        Evicts(Run(maxSize, calls).bytes, c.event.victim)
      modifies this`calls
      ensures Did(old(calls), c)
    {
      hide Next, MustEvict, Evicts, Effective, Run;
      EffectiveSnoc(maxSize, calls, c);
      calls := calls + [c];
    }

    method Get(key: string, now: nat) returns (value: Option<Json>)
      requires Valid()
      modifies this
      ensures Did(old(calls), Call(Event.Get(key), now))
      ensures value == Lookup(old(View()), key, now)
      ensures bytesData == old(bytesData) && evictions == old(evictions) && insertionCounter == old(insertionCounter)
      ensures value.Some? ==>
        key in old(data) && value.value == old(data)[key].data && hits == old(hits) + 1 && misses == old(misses) &&
        data == old(data)[key := old(data)[key].(lastAccess := now, accessCount := old(data)[key].accessCount + 1)]
      ensures value.None? ==> hits == old(hits) && misses == old(misses) + 1 && data == old(data) - {key}
      ensures key in old(data) && old(data)[key].timestamp <= now < 0x1_0000_0000_0000_0000 ==>
        (value.Some? <==> now <= old(data)[key].timestamp + old(data)[key].ttl)
    {
      ReadMeans(View(), key, now);
      hide Run, Effective, Expired;
      ghost var before := View();
      if key in data {
        var entry := data[key];
        if Dead(entry, now) {
          data := data - {key};
          misses := misses + 1;
          value := None;
        } else {
          data := data[key := entry.(lastAccess := now, accessCount := entry.accessCount + 1)];
          hits := hits + 1;
          value := Some(entry.data);
        }
      } else {
        assert Without(data, key) == data;
        misses := misses + 1;
        value := None;
      }
      assert View() == Read(before, key, now);
      hide Read, Lookup;
      Record(Call(Event.Get(key), now));
    }

    method EvictSampleSize() returns (n: nat)
      ensures n == SampleSize(hits, misses) && 20 <= n <= 100
    {
      SampleSizeRange(hits, misses, 0);
      n := SampleSize(hits, misses);
    }

    /** Gives up one entry, if there is one. The iteration order and the shuffle are the
        library's; the choice depends on the first only through the sample, and not on the
        second. */
    method EvictLru(order: seq<string>, now: nat) returns (ghost victim: Option<string>)
      requires Enumerates(order, data) && Stamped(View())
      modifies this`data, this`evictions
      ensures Chosen(old(View()), order, now, victim)
      ensures View() == Evicted(old(View()), victim)
      ensures victim.Some? <==> old(data) != map[]
      ensures victim.Some? ==>
        victim.value in old(data) && data == old(data) - {victim.value} && evictions == old(evictions) + 1
      ensures LiveKeys(old(data), now) != {} ==> victim.Some? && victim.value in LiveKeys(old(data), now)
      ensures LiveKeys(old(data), now) == {} && victim.Some? ==>
        forall k :: k in old(data) ==> old(data)[victim.value].insertionOrder <= old(data)[k].insertionOrder
      ensures 0 < |LiveKeys(old(data), now)| <= 2 * SampleSize(hits, misses) ==>
        Loser(old(data), LiveKeys(old(data), now), victim.value)
    {
      hide DistinctInsertions, Candidates, SampleSize, Dead, Loser, Precedes;
      var sampleSize := EvictSampleSize();
      var all := Collect(data, order, now, 2 * sampleSize);
      CandidatesLive(data, order, now, 2 * sampleSize);
      ghost var live := LiveKeys(data, now);
      if all == [] {
        CandidatesComplete(data, order, now, 2 * sampleSize);
        assert live == {};
        var oldest := OldestInsertion(data, order);
        victim := oldest;
        if oldest.Some? {
          data := data - {oldest.value};
          evictions := evictions + 1;
        }
        return;
      }
      var shuffled :| multiset(shuffled) == multiset(all);
      SameMembers(all, shuffled);
      var key := SelectVictim(data, shuffled);
      assert IsVictim(data, all, key);
      if |live| <= 2 * sampleSize { FullSampleIsGlobal(data, order, now, 2 * sampleSize, key); }
      victim := Some(key);
      data := data - {key};
      evictions := evictions + 1;
    }

    /** When room is needed exactly one chosen entry goes, then the new one goes in. The
        clock is read once for each: `evictionTime`, then `now`. */
    method Set(key: string, value: Json, ttl: nat, evictionTime: nat, now: nat, order: seq<string>)
      returns (ghost victim: Option<string>)
      requires Valid() && Enumerates(order, data)
      modifies this
      ensures Did(old(calls), Call(Event.Set(key, value, ttl, victim), now))
      ensures MustEvict(old(data), maxSize, key) ==> Chosen(old(View()), order, evictionTime, victim)
      ensures insertionCounter == old(insertionCounter) + 1 && bytesData == old(bytesData)
      ensures hits == old(hits) && misses == old(misses)
      ensures key in old(data) || |old(data)| < maxSize || old(data) == map[] ==>
        data == old(data)[key := CacheEntry(value, now, ttl, now, 0, old(insertionCounter))] && evictions == old(evictions)
      ensures key !in old(data) && |old(data)| >= maxSize && old(data) != map[] ==>
        victim.Some? && victim.value in old(data) && evictions == old(evictions) + 1 &&
        data == (old(data) - {victim.value})[key := CacheEntry(value, now, ttl, now, 0, old(insertionCounter))]
    {
      hide Run, Effective, Chosen, Enumerates, Stamped, Evicts;
      RunStamped(maxSize, calls);
      victim := None;
      if |data| >= maxSize && key !in data {
        victim := EvictLru(order, evictionTime);
        ChosenEvicts(old(View()), order, evictionTime, victim);
      }
      data := data[key := CacheEntry(value, now, ttl, now, 0, insertionCounter)];
      insertionCounter := insertionCounter + 1;
      Record(Call(Event.Set(key, value, ttl, victim), now));
    }

    method Remove(key: string, ghost now: nat)
      requires Valid()
      modifies this
      ensures Did(old(calls), Call(Event.Remove(key), now))
      ensures View() == old(View()).(data := old(data) - {key})
    {
      hide Run, Effective;
      data := data - {key};
      Record(Call(Event.Remove(key), now));
    }

    /** Clears the JSON side only. */
    method Clear(ghost now: nat)
      requires Valid()
      modifies this
      ensures Did(old(calls), Call(Event.Clear, now))
      ensures View() == old(View()).(data := map[])
    {
      hide Run, Effective;
      data := map[];
      Record(Call(Event.Clear, now));
    }

    /** Collects the expired keys, then removes them. */
    method CleanupExpired(now: nat, order: seq<string>)
      requires Valid() && Enumerates(order, data)
      modifies this
      ensures Did(old(calls), Call(Event.Cleanup, now))
      ensures View() == old(View()).(data := data) && data.Keys <= old(data).Keys
      ensures forall k :: k in data ==> data[k] == old(data)[k]
      ensures forall k :: k in old(data) && old(data)[k].timestamp <= now < 0x1_0000_0000_0000_0000 ==>
        (k in data <==> now <= old(data)[k].timestamp + old(data)[k].ttl)
    {
      forall k | k in data && data[k].timestamp <= now < TWO_64
        ensures Dead(data[k], now) <==> now > data[k].timestamp + data[k].ttl
      {
        AgeTest(data[k].timestamp, data[k].ttl, now);
      }
      hide Run, Effective, Dead;
      ghost var before := data;
      var expired: seq<string> := [];
      for i := 0 to |order|
        invariant forall k :: k in expired <==> k in order[..i] && Dead(data[k], now)
      {
        assert order[i] in order;
        assert order[..i + 1] == order[..i] + [order[i]];
        if Dead(data[order[i]], now) {
          expired := expired + [order[i]];
        }
      }
      assert order[..|order|] == order;
      for i := 0 to |expired|
        invariant data == map k | k in before && k !in expired[..i] :: before[k]
        invariant hits == old(hits) && misses == old(misses) && evictions == old(evictions)
        invariant insertionCounter == old(insertionCounter) && bytesData == old(bytesData) && calls == old(calls)
      {
        assert expired[..i + 1] == expired[..i] + [expired[i]];
        data := data - {expired[i]};
      }
      assert expired[..|expired|] == expired;
      assert data == Swept(before, now);
      Record(Call(Event.Cleanup, now));
    }

    method GetBytes(key: string, now: nat) returns (value: Option<Bytes>)
      requires Valid()
      modifies this
      ensures Did(old(calls), Call(Event.GetBytes(key), now))
      ensures value == LookupBytes(old(View()), key, now)
      ensures data == old(data) && evictions == old(evictions) && insertionCounter == old(insertionCounter)
      ensures value.Some? ==>
        key in old(bytesData) && value.value == old(bytesData)[key].value &&
        hits == old(hits) + 1 && misses == old(misses) && bytesData == old(bytesData)
      ensures value.None? ==> hits == old(hits) && misses == old(misses) + 1 && bytesData == old(bytesData) - {key}
      ensures key in old(bytesData) && old(bytesData)[key].timestamp <= now < 0x1_0000_0000_0000_0000 ==>
        (value.Some? <==> now <= old(bytesData)[key].timestamp + old(bytesData)[key].ttl)
    {
      if key in bytesData && bytesData[key].timestamp <= now < TWO_64 {
        AgeTest(bytesData[key].timestamp, bytesData[key].ttl, now);
      }
      hide Run, Effective, Expired;
      if key in bytesData {
        var entry := bytesData[key];
        if Expired(entry.timestamp, entry.ttl, now) {
          bytesData := bytesData - {key};
          misses := misses + 1;
          value := None;
        } else {
          hits := hits + 1;
          value := Some(entry.value);
        }
      } else {
        assert Without(bytesData, key) == bytesData;
        misses := misses + 1;
        value := None;
      }
      Record(Call(Event.GetBytes(key), now));
    }

    /** A full byte side gives up whichever entry its iterator yields first. */
    method SetBytes(key: string, bytes: Bytes, ttl: nat, now: nat, order: seq<string>)
      returns (ghost victim: Option<string>)
      requires Valid() && forall k :: k in order <==> k in bytesData
      modifies this
      ensures Did(old(calls), Call(Event.SetBytes(key, bytes, ttl, victim), now))
      ensures victim.Some? ==> order != [] && victim.value == order[0]
      ensures View() == old(View()).(bytes := bytesData)
      ensures key in old(bytesData) || |old(bytesData)| < maxSize || old(bytesData) == map[] ==>
        bytesData == old(bytesData)[key := Stored(bytes, now, ttl)]
      ensures key !in old(bytesData) && |old(bytesData)| >= maxSize && old(bytesData) != map[] ==>
        victim.Some? && victim.value in old(bytesData) &&
        bytesData == (old(bytesData) - {victim.value})[key := Stored(bytes, now, ttl)]
    {
      hide Run, Effective;
      victim := None;
      if |bytesData| >= maxSize && key !in bytesData {
        if order != [] {
          victim := Some(order[0]);
          bytesData := bytesData - {order[0]};
        } else {
          assert forall k :: k !in bytesData;
        }
      }
      bytesData := bytesData[key := Stored(bytes, now, ttl)];
      Record(Call(Event.SetBytes(key, bytes, ttl, victim), now));
    }

    method RemoveBytes(key: string, ghost now: nat)
      requires Valid()
      modifies this
      ensures Did(old(calls), Call(Event.RemoveBytes(key), now))
      ensures View() == old(View()).(bytes := old(bytesData) - {key})
    {
      hide Run, Effective;
      bytesData := bytesData - {key};
      Record(Call(Event.RemoveBytes(key), now));
    }

    method Size() returns (n: nat)
      requires Valid()
      ensures n == |data| && n <= Bound(maxSize)
    {
      RunInBounds(maxSize, calls);
      n := |data|;
    }
  }

  lemma SameMembers(a: seq<string>, b: seq<string>)
    requires multiset(a) == multiset(b)
    ensures forall k :: k in a <==> k in b
    ensures |a| == |b|
  {
    forall k ensures k in a <==> k in b {
      assert k in a <==> k in multiset(a);
      assert k in b <==> k in multiset(b);
    }
    assert |multiset(a)| == |a| && |multiset(b)| == |b|;
  }
}
