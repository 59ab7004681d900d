/** src/tensor_pool.rs: tensors pooled under a packed shape key, and byte buffers pooled in
    size classes. */
module TensorPools {
  import opened Wrappers

  const RANK: nat := 8
  const TWO_32: nat := 0x1_0000_0000

  /** Slot `i` of the packed key: a dimension cut to 32 bits, zero past the rank. */
  function KeySlot(dims: seq<nat>, i: nat): nat { if i < |dims| then dims[i] % TWO_32 else 0 }

  function KeyOf(dims: seq<nat>): seq<nat> { seq(RANK, i requires i >= 0 => KeySlot(dims, i)) }

  function Product(dims: seq<nat>): nat { if dims == [] then 1 else Product(dims[..|dims| - 1]) * dims[|dims| - 1] }

  /** The element count: 1 for a scalar, and multiplicative. */
  lemma {:induction false} ProductLaws(a: seq<nat>, b: seq<nat>, d: nat)
    ensures Product([]) == 1 && Product([d]) == d && Product(a + b) == Product(a) * Product(b)
  {
    assert [d][..0] == [];
    if b == [] {
      assert a + b == a;
    } else {
      var init, last := b[..|b| - 1], b[|b| - 1];
      ProductLaws(a, init, d);
      assert (a + b)[..|a + b| - 1] == a + init;
      Associate(Product(a), Product(init), last);
    }
  }

  lemma Associate(x: nat, y: nat, z: nat)
    ensures x * y * z == x * (y * z)
  {
  }

  /** The shapes the key is meant for: up to eight non-zero dimensions that fit 32 bits. */
  predicate Packs(dims: seq<nat>) {
    |dims| <= RANK && forall i :: 0 <= i < |dims| ==> 0 < dims[i] < TWO_32
  }

  /** On those shapes equal keys mean equal shapes. */
  lemma KeyInjective(a: seq<nat>, b: seq<nat>)
    requires Packs(a) && Packs(b) && KeyOf(a) == KeyOf(b)
    ensures a == b
  {
    RankFromKey(a);
    RankFromKey(b);
    assert forall i :: 0 <= i < RANK ==> KeyOf(a)[i] == KeySlot(a, i) && KeyOf(b)[i] == KeySlot(b, i);
    assert |a| < RANK ==> KeySlot(a, |a|) == KeyOf(b)[|a|] == KeySlot(b, |a|);
    assert |b| < RANK ==> KeySlot(b, |b|) == KeyOf(a)[|b|] == KeySlot(a, |b|);
    assert |a| == |b|;
    forall i | 0 <= i < |a| ensures a[i] == b[i] { assert KeySlot(a, i) == KeySlot(b, i); }
  }

  lemma RankFromKey(dims: seq<nat>)
    requires Packs(dims)
    ensures forall i :: 0 <= i < RANK ==> (KeySlot(dims, i) != 0 <==> i < |dims|)
  {
  }

  /** Outside them it is not so: a zero dimension, a ninth one, or one past 32 bits shares a
      key with a shape of another size. */
  lemma KeyCollides()
    ensures KeyOf([2]) == KeyOf([2, 0]) && Product([2]) != Product([2, 0])
    ensures KeyOf([1, 1, 1, 1, 1, 1, 1, 1]) == KeyOf([1, 1, 1, 1, 1, 1, 1, 1, 2])
    ensures KeyOf([1]) == KeyOf([TWO_32 + 1])
  {
  }

  // ---------------------------------------------------------------- runs

  type Tensor = seq<real>

  type Pools = map<seq<nat>, seq<Tensor>>

  datatype State = State(pools: Pools, allocations: nat, reuses: nat)

  /** What is pooled under a key; both pools are maps of stacks. */
  function Stack<K, V>(pools: map<K, seq<V>>, key: K): seq<V> { if key in pools then pools[key] else [] }

  /** The tensor handed out and the pool after it: the last one released, or a new one. */
  function Acquired(s: State, dims: seq<nat>): (State, Tensor) {
    var stack := Stack(s.pools, KeyOf(dims));
    if stack != [] then
      (State(s.pools[KeyOf(dims) := stack[..|stack| - 1]], s.allocations, s.reuses + 1), stack[|stack| - 1])
    else (s.(allocations := s.allocations + 1), Zeros(Product(dims)))
  }

  function Released(max: nat, s: State, dims: seq<nat>, t: Tensor): State {
    var stack := Stack(s.pools, KeyOf(dims));
    s.(pools := s.pools[KeyOf(dims) := if |stack| < max then stack + [t] else stack])
  }

  datatype Event = Acquire(dims: seq<nat>) | Release(dims: seq<nat>, tensor: Tensor)

  function Do(max: nat, s: State, e: Event): State {
    match e
    case Acquire(dims) => Acquired(s, dims).0
    case Release(dims, t) => Released(max, s, dims, t)
  }

  function Run(max: nat, events: seq<Event>): State {
    if events == [] then State(map[], 0, 0) else Do(max, Run(max, events[..|events| - 1]), events[|events| - 1])
  }

  /** Shapes of one key have one size: all that reuse needs. */
  ghost predicate Agreeing(shapes: set<seq<nat>>) {
    forall a, b :: a in shapes && b in shapes && KeyOf(a) == KeyOf(b) ==> Product(a) == Product(b)
  }

  lemma PackedShapesAgree(shapes: set<seq<nat>>)
    requires forall a :: a in shapes ==> Packs(a)
    ensures Agreeing(shapes)
  {
    forall a, b | a in shapes && b in shapes && KeyOf(a) == KeyOf(b) ensures Product(a) == Product(b) {
      KeyInjective(a, b);
    }
  }

  /** A run over `shapes` in which tensors come back under their own shape. */
  ghost predicate Proper(shapes: set<seq<nat>>, events: seq<Event>) {
    forall i :: 0 <= i < |events| ==>
      events[i].dims in shapes && (events[i].Release? ==> |events[i].tensor| == Product(events[i].dims))
  }

  /** Every pooled tensor has the size of every shape with its key. */
  ghost predicate Sized(shapes: set<seq<nat>>, pools: Pools) {
    forall dims, i :: dims in shapes && 0 <= i < |Stack(pools, KeyOf(dims))| ==>
      |Stack(pools, KeyOf(dims))[i]| == Product(dims)
  }

  lemma DoKeepsSized(max: nat, shapes: set<seq<nat>>, s: State, e: Event)
    requires Agreeing(shapes) && Sized(shapes, s.pools)
    requires e.dims in shapes && (e.Release? ==> |e.tensor| == Product(e.dims))
    ensures Sized(shapes, Do(max, s, e).pools)
  {
    hide KeyOf, Product;
    var pools := Do(max, s, e).pools;
    forall dims, i | dims in shapes && 0 <= i < |Stack(pools, KeyOf(dims))|
      ensures |Stack(pools, KeyOf(dims))[i]| == Product(dims)
    {
      assert KeyOf(dims) == KeyOf(e.dims) ==> Product(dims) == Product(e.dims);
      assert i < |Stack(s.pools, KeyOf(dims))| ==> |Stack(s.pools, KeyOf(dims))[i]| == Product(dims);
    }
  }

  lemma {:induction false} RunSized(max: nat, shapes: set<seq<nat>>, events: seq<Event>)
    requires Agreeing(shapes) && Proper(shapes, events)
    ensures Sized(shapes, Run(max, events).pools)
  {
    if events != [] {
      RunSized(max, shapes, events[..|events| - 1]);
      hide Sized, Agreeing, Do;
      DoKeepsSized(max, shapes, Run(max, events[..|events| - 1]), events[|events| - 1]);
    }
  }

  function Zeros(n: nat): Tensor { seq(n, _ => 0.0) }

  /** Two shapes that share a key but not a size: allocate one, return it, ask for the other. */
  lemma DisagreementMisfits(max: nat, a: seq<nat>, b: seq<nat>)
    requires max >= 1 && KeyOf(a) == KeyOf(b) && Product(a) != Product(b)
    ensures var events := [Acquire(a), Release(a, Zeros(Product(a)))];
            Proper({a, b}, events) && |Acquired(Run(max, events), b).1| != Product(b)
  {
    hide KeyOf, Product;
    var first := [Acquire(a)];
    var events := [Acquire(a), Release(a, Zeros(Product(a)))];
    assert events[..1] == first && first[..0] == [];
    assert Run(max, first) == Do(max, Run(max, []), first[0]);
    var s := Run(max, events);
    assert s == Released(max, Run(max, first), a, Zeros(Product(a)));
    assert Stack(s.pools, KeyOf(b)) == [Zeros(Product(a))];
  }

  /** Reuse is safe for a set of shapes, in every proper run, exactly when shapes of one key
      have one size. */
  lemma AcquireFitsIff(max: nat, shapes: set<seq<nat>>)
    requires max >= 1
    ensures Agreeing(shapes) <==>
      forall events, dims :: Proper(shapes, events) && dims in shapes ==>
        |Acquired(Run(max, events), dims).1| == Product(dims)
  {
    hide KeyOf, Product;
    if Agreeing(shapes) {
      forall events, dims | Proper(shapes, events) && dims in shapes
        ensures |Acquired(Run(max, events), dims).1| == Product(dims)
      {
        RunSized(max, shapes, events);
      }
    } else {
      var a, b :| a in shapes && b in shapes && KeyOf(a) == KeyOf(b) && Product(a) != Product(b);
      DisagreementMisfits(max, a, b);
      var events := [Acquire(a), Release(a, Zeros(Product(a)))];
      assert Proper(shapes, events);
    }
  }

  /** So on packing shapes an acquire gets exactly its element count, over any proper run. */
  lemma AcquireFits(max: nat, shapes: set<seq<nat>>, events: seq<Event>, dims: seq<nat>)
    requires (forall a :: a in shapes ==> Packs(a)) && Proper(shapes, events) && dims in shapes
    ensures |Acquired(Run(max, events), dims).1| == Product(dims)
  {
    PackedShapesAgree(shapes);
    RunSized(max, shapes, events);
  }

  // ---------------------------------------------------------------- conservation

  function Count<K, V>(pools: map<K, seq<V>>, keys: seq<K>): nat {
    if keys == [] then 0 else |Stack(pools, keys[0])| + Count(pools, keys[1..])
  }

  /** Tensors handed out less tensors taken back; negative when callers bring their own. */
  function Out(events: seq<Event>): int {
    if events == [] then 0 else Out(events[..|events| - 1]) + (if events[|events| - 1].Acquire? then 1 else -1)
  }

  /** Tensors dropped because their stack was full. */
  function Dropped(max: nat, events: seq<Event>): nat {
    if events == [] then 0
    else
      var s, e := Run(max, events[..|events| - 1]), events[|events| - 1];
      Dropped(max, events[..|events| - 1]) +
      (if e.Release? && |Stack(s.pools, KeyOf(e.dims))| >= max then 1 else 0)
  }

  ghost predicate NoRepeats<K>(keys: seq<K>) {
    forall i, j :: 0 <= i < j < |keys| ==> keys[i] != keys[j]
  }

  lemma {:induction false} CountUpdate<K, V>(pools: map<K, seq<V>>, keys: seq<K>, key: K, stack: seq<V>)
    requires NoRepeats(keys)
    ensures key in keys ==>
      Count(pools[key := stack], keys) + |Stack(pools, key)| == Count(pools, keys) + |stack|
    ensures key !in keys ==> Count(pools[key := stack], keys) == Count(pools, keys)
  {
    if keys != [] {
      var t := keys[1..];
      assert keys == [keys[0]] + t;
      assert forall j :: 0 <= j < |t| ==> t[j] == keys[j + 1];
      CountUpdate(pools, t, key, stack);
      assert keys[0] !in t;
    }
  }

  lemma {:induction false} EmptyCount<K, V>(keys: seq<K>)
    ensures Count<K, V>(map[], keys) == 0
  {
    if keys != [] { EmptyCount<K, V>(keys[1..]); }
  }

  function Acquires(events: seq<Event>): nat {
    if events == [] then 0 else Acquires(events[..|events| - 1]) + (if events[|events| - 1].Acquire? then 1 else 0)
  }

  /** Allocated tensors are pooled, out, or dropped; reuses and allocations are the acquires.
      `keys` is any list of all keys, once each. */
  lemma {:induction false} TensorsConserved(max: nat, events: seq<Event>, keys: seq<seq<nat>>)
    requires NoRepeats(keys) && forall i :: 0 <= i < |events| ==> KeyOf(events[i].dims) in keys
    ensures var s := Run(max, events);
            s.allocations == Count(s.pools, keys) + Out(events) + Dropped(max, events) &&
            s.allocations + s.reuses == Acquires(events)
  {
    if events == [] {
      EmptyCount<seq<nat>, Tensor>(keys);
    } else {
      var init, e := events[..|events| - 1], events[|events| - 1];
      TensorsConserved(max, init, keys);
      hide KeyOf, Product;
      var s := Run(max, init);
      var stack := Stack(s.pools, KeyOf(e.dims));
      if stack != [] { CountUpdate(s.pools, keys, KeyOf(e.dims), stack[..|stack| - 1]); }
      if e.Release? { CountUpdate(s.pools, keys, KeyOf(e.dims), if |stack| < max then stack + [e.tensor] else stack); }
    }
  }

  // ---------------------------------------------------------------- size classes

  const BUCKETS: seq<nat> := [1_024, 4_096, 16_384, 65_536, 262_144, 1_048_576]

  function FirstAtLeast(buckets: seq<nat>, size: nat): nat {
    if buckets == [] then size
    else if buckets[0] >= size then buckets[0]
    else FirstAtLeast(buckets[1..], size)
  }

  function BucketFor(size: nat): nat { FirstAtLeast(BUCKETS, size) }

  /** A bucket is the least class that fits, larger requests never get a smaller one, and a
      buffer of a bucket's size belongs to that bucket. */
  lemma BucketLaws(size: nat, larger: nat)
    requires size <= larger
    ensures BucketFor(size) >= size
    ensures forall b :: b in [1_024, 4_096, 16_384, 65_536, 262_144, 1_048_576] && b >= size ==> BucketFor(size) <= b
    ensures if size <= 1_048_576 then BucketFor(size) in [1_024, 4_096, 16_384, 65_536, 262_144, 1_048_576]
            else BucketFor(size) == size
    ensures BucketFor(size) <= BucketFor(larger)
    ensures BucketFor(BucketFor(size)) == BucketFor(size)
  {
    assert 1_048_576 in BUCKETS && forall b :: b in BUCKETS ==> b <= 1_048_576;
    FirstIsLeast(BUCKETS, size);
    FirstIsLeast(BUCKETS, larger);
    FirstIsLeast(BUCKETS, BucketFor(size));
  }

  /** The first class that fits is the least, or nothing fits and the size stands alone. */
  lemma {:induction false} FirstIsLeast(buckets: seq<nat>, size: nat)
    requires forall i, j :: 0 <= i < j < |buckets| ==> buckets[i] < buckets[j]
    ensures var r := FirstAtLeast(buckets, size);
            r >= size && (forall b :: b in buckets && b >= size ==> r <= b) &&
            (r in buckets || (r == size && forall b :: b in buckets ==> b < size))
  {
    if buckets != [] {
      assert buckets == [buckets[0]] + buckets[1..];
      FirstIsLeast(buckets[1..], size);
    }
  }

  /** A byte buffer: its length and the capacity behind it. */
  datatype Buffer = Buffer(len: nat, capacity: nat)

  type Buckets = map<nat, seq<Buffer>>

  function Taken(buckets: Buckets, minSize: nat): (Buckets, Buffer) {
    var b := BucketFor(minSize);
    var shelf := Stack(buckets, b);
    if shelf != [] then (buckets[b := shelf[..|shelf| - 1]], shelf[|shelf| - 1])
    else (buckets, Buffer(b, b))
  }

  function Returned(max: nat, buckets: Buckets, buf: Buffer): Buckets {
    var b := BucketFor(buf.capacity);
    var shelf := Stack(buckets, b);
    buckets[b := if |shelf| < max then shelf + [buf] else shelf]
  }

  /** A buffer as long as the class that its capacity puts it in. */
  predicate Whole(buf: Buffer) { buf.len >= BucketFor(buf.capacity) }

  /** A vector is no longer than its capacity, so it is whole exactly when it is full and its
      capacity is a size class, or larger than them all; what the pool allocates is. */
  lemma WholeIffClass(buf: Buffer, minSize: nat)
    requires buf.len <= buf.capacity
    ensures Whole(buf) <==>
      buf.len == buf.capacity &&
      (buf.capacity in [1_024, 4_096, 16_384, 65_536, 262_144, 1_048_576] || buf.capacity > 1_048_576)
    ensures Whole(Buffer(BucketFor(minSize), BucketFor(minSize)))
  {
    BucketLaws(minSize, minSize);
    FirstIsLeast(BUCKETS, buf.capacity);
    var last := BUCKETS[|BUCKETS| - 1];
    assert last in BUCKETS && forall b :: b in BUCKETS ==> b <= last;
  }

  /** Every shelved buffer is as long as its shelf promises. */
  ghost predicate Fits(buckets: Buckets) {
    forall b, i :: 0 <= i < |Stack(buckets, b)| ==> Stack(buckets, b)[i].len >= b
  }

  /** From a fitting pool, an acquire gets at least what it asked for, and the pool still
      fits. */
  lemma TakenIsEnough(buckets: Buckets, minSize: nat)
    requires Fits(buckets)
    ensures Taken(buckets, minSize).1.len >= minSize && Fits(Taken(buckets, minSize).0)
  {
    BucketLaws(minSize, minSize);
    hide BucketFor;
    var t := Taken(buckets, minSize).0;
    forall b, i | 0 <= i < |Stack(t, b)| ensures Stack(t, b)[i].len >= b {
      assert Stack(t, b)[i] == Stack(buckets, b)[i];
    }
  }

  /** After a release into a fitting pool with room, every request is met exactly when the
      returned buffer is whole. */
  lemma ReturnFitsIff(max: nat, buckets: Buckets, buf: Buffer)
    requires Fits(buckets) && |Stack(buckets, BucketFor(buf.capacity))| < max
    ensures Fits(Returned(max, buckets, buf)) <==> Whole(buf)
    ensures (forall m: nat :: Taken(Returned(max, buckets, buf), m).1.len >= m) <==> Whole(buf)
  {
    var r, home := Returned(max, buckets, buf), BucketFor(buf.capacity);
    BucketLaws(buf.capacity, buf.capacity);
    hide BucketFor;
    var n := |Stack(buckets, home)|;
    assert Stack(r, home)[n] == buf;
    if Whole(buf) {
      forall b, i | 0 <= i < |Stack(r, b)| ensures Stack(r, b)[i].len >= b {
        assert (b != home || i < n) ==> Stack(r, b)[i] == Stack(buckets, b)[i];
      }
      forall m: nat ensures Taken(r, m).1.len >= m { TakenIsEnough(r, m); }
    } else {
      assert Taken(r, home).1 == buf;
    }
  }

  /** Every call of a pool. */
  datatype Use = Take(minSize: nat) | Give(buffer: Buffer)

  datatype Shelves = Shelves(buckets: Buckets, allocations: nat, reuses: nat)

  function UseOne(max: nat, s: Shelves, u: Use): Shelves {
    match u
    case Take(minSize) =>
      if Stack(s.buckets, BucketFor(minSize)) == []
      then Shelves(Taken(s.buckets, minSize).0, s.allocations + 1, s.reuses)
      else Shelves(Taken(s.buckets, minSize).0, s.allocations, s.reuses + 1)
    case Give(buffer) => s.(buckets := Returned(max, s.buckets, buffer))
  }

  function UseAll(max: nat, uses: seq<Use>): Shelves {
    if uses == [] then Shelves(map[], 0, 0) else UseOne(max, UseAll(max, uses[..|uses| - 1]), uses[|uses| - 1])
  }

  /** The buffers a run gives back are among `bufs`. */
  ghost predicate Gives(bufs: set<Buffer>, uses: seq<Use>) {
    forall i :: 0 <= i < |uses| && uses[i].Give? ==> uses[i].buffer in bufs
  }

  ghost predicate AllWhole(bufs: set<Buffer>) { forall buf :: buf in bufs ==> Whole(buf) }

  ghost predicate GivesWhole(uses: seq<Use>) {
    forall i :: 0 <= i < |uses| && uses[i].Give? ==> Whole(uses[i].buffer)
  }

  lemma FullShelfUnchanged(max: nat, buckets: Buckets, buf: Buffer)
    requires Fits(buckets) && |Stack(buckets, BucketFor(buf.capacity))| >= max
    ensures Fits(Returned(max, buckets, buf))
  {
    hide BucketFor;
    forall b, i | 0 <= i < |Stack(Returned(max, buckets, buf), b)|
      ensures Stack(Returned(max, buckets, buf), b)[i].len >= b
    {
      assert Stack(Returned(max, buckets, buf), b) == Stack(buckets, b);
    }
  }

  /** Over any run that gives back whole buffers, a request for `minSize` bytes gets at least
      that many. */
  lemma {:induction false} BuffersSuffice(max: nat, uses: seq<Use>, minSize: nat)
    requires GivesWhole(uses)
    ensures Fits(UseAll(max, uses).buckets) && Taken(UseAll(max, uses).buckets, minSize).1.len >= minSize
  {
    hide BucketFor, Fits, Whole;
    if uses == [] {
      NothingShelved();
    } else {
      var init, last := UseAll(max, uses[..|uses| - 1]).buckets, uses[|uses| - 1];
      BuffersSuffice(max, uses[..|uses| - 1], minSize);
      match last {
        case Take(size) => TakenIsEnough(init, size);
        case Give(buffer) =>
          if |Stack(init, BucketFor(buffer.capacity))| < max {
            ReturnFitsIff(max, init, buffer);
          } else {
            FullShelfUnchanged(max, init, buffer);
          }
      }
    }
    TakenIsEnough(UseAll(max, uses).buckets, minSize);
  }

  lemma NothingShelved()
    ensures Fits(map[])
  {
  }

  /** Every request of every run that gives back only these buffers is met exactly when all
      of them are whole. */
  lemma BuffersSufficeIff(max: nat, bufs: set<Buffer>)
    requires max >= 1
    ensures AllWhole(bufs) <==>
      forall uses, m: nat :: Gives(bufs, uses) ==> Taken(UseAll(max, uses).buckets, m).1.len >= m
  {
    hide BucketFor, Whole, Taken;
    if AllWhole(bufs) {
      forall uses, m: nat | Gives(bufs, uses) ensures Taken(UseAll(max, uses).buckets, m).1.len >= m {
        BuffersSuffice(max, uses, m);
      }
    } else {
      var buf :| buf in bufs && !Whole(buf);
      var uses := [Give(buf)];
      NothingShelved();
      ReturnFitsIff(max, map[], buf);
      assert uses[..0] == [];
      assert UseAll(max, uses).buckets == Returned(max, map[], buf);
      assert Gives(bufs, uses);
    }
  }

  /** A foreign buffer of 1000 bytes is shelved under 1024 and then handed out for 1024. */
  lemma ForeignBufferIsShort()
    ensures Taken(Returned(32, map[], Buffer(1_000, 1_000)), 1_024).1.len == 1_000
  {
  }

  /** Buffers handed out less buffers taken back; negative when callers bring their own. */
  function BuffersOut(uses: seq<Use>): int {
    if uses == [] then 0 else BuffersOut(uses[..|uses| - 1]) + (if uses[|uses| - 1].Take? then 1 else -1)
  }

  function Takes(uses: seq<Use>): nat {
    if uses == [] then 0 else Takes(uses[..|uses| - 1]) + (if uses[|uses| - 1].Take? then 1 else 0)
  }

  /** Buffers dropped because their shelf was full. */
  function BuffersDropped(max: nat, uses: seq<Use>): nat {
    if uses == [] then 0
    else
      var s, u := UseAll(max, uses[..|uses| - 1]), uses[|uses| - 1];
      BuffersDropped(max, uses[..|uses| - 1]) +
      (if u.Give? && |Stack(s.buckets, BucketFor(u.buffer.capacity))| >= max then 1 else 0)
  }

  /** The size class a call works on. */
  function ClassOf(u: Use): nat { if u.Take? then BucketFor(u.minSize) else BucketFor(u.buffer.capacity) }

  /** Allocated buffers are shelved, out, or dropped, and every acquire is one allocation or
      one reuse. `classes` is any list of all size classes used, once each. */
  lemma {:induction false} BuffersConserved(max: nat, uses: seq<Use>, classes: seq<nat>)
    requires NoRepeats(classes) && forall i :: 0 <= i < |uses| ==> ClassOf(uses[i]) in classes
    ensures var s := UseAll(max, uses);
            s.allocations == Count(s.buckets, classes) + BuffersOut(uses) + BuffersDropped(max, uses) &&
            s.allocations + s.reuses == Takes(uses)
  {
    if uses == [] {
      EmptyCount<nat, Buffer>(classes);
    } else {
      var init, u := uses[..|uses| - 1], uses[|uses| - 1];
      BuffersConserved(max, init, classes);
      hide BucketFor;
      var s := UseAll(max, init);
      var shelf := Stack(s.buckets, ClassOf(u));
      if shelf != [] { CountUpdate(s.buckets, classes, ClassOf(u), shelf[..|shelf| - 1]); }
      if u.Give? { CountUpdate(s.buckets, classes, ClassOf(u), if |shelf| < max then shelf + [u.buffer] else shelf); }
    }
  }

  // ---------------------------------------------------------------- the structs

  class TensorShape {
    const dims: seq<nat>
    const totalSize: nat
    const key: seq<nat>

    /** Fills the key array one dimension at a time, at most eight of them. */
    constructor (dims: seq<nat>)
      ensures this.dims == dims && totalSize == Product(dims) && key == KeyOf(dims)
    {
      this.dims := dims;
      var total := 1;
      for i := 0 to |dims|
        invariant total == Product(dims[..i])
      {
        assert dims[..i + 1][..i] == dims[..i];
        total := total * dims[i];
      }
      assert dims[..|dims|] == dims;
      totalSize := total;
      var packed := new nat[RANK](_ => 0);
      var i := 0;
      while i < |dims| && i < RANK
        invariant i <= |dims| && i <= RANK
        invariant forall j :: 0 <= j < i ==> packed[j] == KeySlot(dims, j)
        invariant forall j :: i <= j < RANK ==> packed[j] == 0
      {
        packed[i] := dims[i] % TWO_32;
        i := i + 1;
      }
      assert packed[..] == KeyOf(dims);
      key := packed[..];
    }
  }

  class TensorPool {
    var pools: Pools
    const maxPooledTensors: nat
    var allocations: nat
    var reuses: nat
    /** Every call made so far. */
    ghost var events: seq<Event>

    ghost predicate Valid()
      reads this
    {
      State(pools, allocations, reuses) == Run(maxPooledTensors, events)
    }

    constructor (maxPooledTensors: nat)
      ensures Valid() && events == [] && this.maxPooledTensors == maxPooledTensors
    {
      this.maxPooledTensors := maxPooledTensors;
      pools := map[];
      allocations, reuses := 0, 0;
      events := [];
    }

    ghost method Record(e: Event)
      requires State(pools, allocations, reuses) == Do(maxPooledTensors, Run(maxPooledTensors, events), e)
      modifies this`events
      ensures Valid() && events == old(events) + [e]
    {
      hide Do;
      events := events + [e];
      assert events[..|events| - 1] == old(events);
    }

    method Acquire(shape: TensorShape) returns (tensor: Tensor)
      requires Valid() && shape.key == KeyOf(shape.dims) && shape.totalSize == Product(shape.dims)
      modifies this
      ensures Valid() && events == old(events) + [Event.Acquire(shape.dims)]
      ensures tensor == Acquired(Run(maxPooledTensors, old(events)), shape.dims).1
      ensures var stack := if shape.key in old(pools) then old(pools)[shape.key] else [];
              if stack != [] then
                tensor == stack[|stack| - 1] && pools == old(pools)[shape.key := stack[..|stack| - 1]] &&
                reuses == old(reuses) + 1 && allocations == old(allocations)
              else
                |tensor| == shape.totalSize && (forall i :: 0 <= i < |tensor| ==> tensor[i] == 0.0) &&
                pools == old(pools) && reuses == old(reuses) && allocations == old(allocations) + 1
    {
      hide Run, KeyOf, Product;
      if shape.key in pools && pools[shape.key] != [] {
        var stack := pools[shape.key];
        tensor := stack[|stack| - 1];
        pools := pools[shape.key := stack[..|stack| - 1]];
        reuses := reuses + 1;
      } else {
        allocations := allocations + 1;
        tensor := Zeros(shape.totalSize);
      }
      Record(Event.Acquire(shape.dims));
    }

    method Release(shape: TensorShape, tensor: Tensor)
      requires Valid() && shape.key == KeyOf(shape.dims)
      modifies this
      ensures Valid() && events == old(events) + [Event.Release(shape.dims, tensor)]
      ensures var stack := if shape.key in old(pools) then old(pools)[shape.key] else [];
              pools == old(pools)[shape.key := if |stack| < maxPooledTensors then stack + [tensor] else stack]
    {
      hide Run, KeyOf;
      var entry := if shape.key in pools then pools[shape.key] else [];
      if |entry| < maxPooledTensors {
        entry := entry + [tensor];
      }
      pools := pools[shape.key := entry];
      Record(Event.Release(shape.dims, tensor));
    }
  }

  class BufferPool {
    var buckets: Buckets
    const maxPerBucket: nat
    var allocations: nat
    var reuses: nat
    /** Every call made so far. */
    ghost var uses: seq<Use>

    ghost predicate Valid()
      reads this
    {
      Shelves(buckets, allocations, reuses) == UseAll(maxPerBucket, uses)
    }

    constructor (maxPerBucket: nat)
      ensures Valid() && uses == [] && this.maxPerBucket == maxPerBucket
    {
      this.maxPerBucket := maxPerBucket;
      buckets := map[];
      allocations, reuses := 0, 0;
      uses := [];
    }

    ghost method Record(u: Use)
      requires Shelves(buckets, allocations, reuses) == UseOne(maxPerBucket, UseAll(maxPerBucket, uses), u)
      modifies this`uses
      ensures Valid() && uses == old(uses) + [u]
    {
      hide UseOne;
      uses := uses + [u];
      assert uses[..|uses| - 1] == old(uses);
    }

    /** A buffer of at least `minSize` bytes, provided only whole ones came back. */
    method Acquire(minSize: nat) returns (buf: Buffer)
      requires Valid()
      modifies this
      ensures Valid() && uses == old(uses) + [Take(minSize)]
      ensures buf == Taken(UseAll(maxPerBucket, old(uses)).buckets, minSize).1
      ensures GivesWhole(old(uses)) ==> buf.len >= minSize
      ensures var b := BucketFor(minSize);
              var shelf := if b in old(buckets) then old(buckets)[b] else [];
              if shelf != [] then
                buf == shelf[|shelf| - 1] && buckets == old(buckets)[b := shelf[..|shelf| - 1]] &&
                reuses == old(reuses) + 1 && allocations == old(allocations)
              else
                buf == Buffer(b, b) && buckets == old(buckets) && reuses == old(reuses) && allocations == old(allocations) + 1
    {
      hide BucketFor, UseAll, GivesWhole;
      if GivesWhole(uses) { BuffersSuffice(maxPerBucket, uses, minSize); }
      var bucket := BucketFor(minSize);
      if bucket in buckets && buckets[bucket] != [] {
        var shelf := buckets[bucket];
        buf := shelf[|shelf| - 1];
        buckets := buckets[bucket := shelf[..|shelf| - 1]];
        reuses := reuses + 1;
      } else {
        allocations := allocations + 1;
        buf := Buffer(bucket, bucket);
      }
      Record(Take(minSize));
    }

    method Release(buf: Buffer)
      requires Valid()
      modifies this
      ensures Valid() && uses == old(uses) + [Give(buf)]
      ensures var b := BucketFor(buf.capacity);
              var shelf := if b in old(buckets) then old(buckets)[b] else [];
              buckets == old(buckets)[b := if |shelf| < maxPerBucket then shelf + [buf] else shelf]
    {
      hide BucketFor, UseAll;
      var bucket := BucketFor(buf.capacity);
      var shelf := if bucket in buckets then buckets[bucket] else [];
      if |shelf| < maxPerBucket {
        shelf := shelf + [buf];
      }
      buckets := buckets[bucket := shelf];
      Record(Give(buf));
    }
  }
}
