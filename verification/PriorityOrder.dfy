/** The total order on queued requests used by both batchers, the sorted list it
    determines, and a binary heap proved to deliver that list whatever its layout. */
module PriorityOrder {
  import opened Wrappers

  /** A queued request. `timestamp` is the enqueue instant, in nanoseconds. */
  datatype Request = Request(id: string, model: string, priority: int, timestamp: nat)

  /** The heap entry: `ticket` is the insertion sequence number. */
  datatype Ordered = Ordered(priority: int, ticket: nat, request: Request)

  /** `a` compares greater than `b`: it leaves the max-heap first. */
  predicate Beats(a: Ordered, b: Ordered) {
    a.priority > b.priority || (a.priority == b.priority && a.ticket < b.ticket)
  }

  ghost predicate Ranked(s: seq<Ordered>) {
    forall i, j :: 0 <= i < j < |s| ==> Beats(s[i], s[j])
  }

  /** Every entry is queued once and no two entries share a ticket. */
  ghost predicate Distinct(m: multiset<Ordered>) {
    (forall x :: x in m ==> m[x] == 1) &&
    (forall x, y :: x in m && y in m && x != y ==> x.ticket != y.ticket)
  }

  /** Places `x` after everything that beats it. */
  function Insert(x: Ordered, s: seq<Ordered>): seq<Ordered> {
    if s == [] then [x]
    else if Beats(x, s[0]) then [x] + s
    else [s[0]] + Insert(x, s[1..])
  }

  lemma {:induction false} InsertBag(x: Ordered, s: seq<Ordered>)
    ensures multiset(Insert(x, s)) == multiset(s) + multiset{x}
    ensures forall y :: y in Insert(x, s) <==> y in s || y == x
  {
    if s != [] {
      assert s == [s[0]] + s[1..];
      InsertBag(x, s[1..]);
    }
  }

  lemma InBag(s: seq<Ordered>, t: seq<Ordered>, x: Ordered)
    requires multiset(s) == multiset(t)
    ensures x in s <==> x in t
  {
    assert x in s <==> x in multiset(s);
    assert x in t <==> x in multiset(t);
  }

  lemma {:induction false} InsertRanked(x: Ordered, s: seq<Ordered>)
    requires Ranked(s)
    requires forall y :: y in s ==> y.ticket != x.ticket
    ensures Ranked(Insert(x, s))
  {
    if s != [] && !Beats(x, s[0]) {
      var t := s[1..];
      InsertRanked(x, t);
      InsertBag(x, t);
      forall y | y in Insert(x, t) ensures Beats(s[0], y) { }
    }
  }

  lemma DistinctSub(s: seq<Ordered>, top: Ordered, h: seq<Ordered>)
    requires Distinct(multiset(s)) && multiset(h) + multiset{top} == multiset(s)
    ensures Distinct(multiset(h)) && top !in h
    ensures forall y :: y in h ==> y.ticket != top.ticket
  {
    forall x | x in multiset(h) ensures x in multiset(s) && multiset(h)[x] == 1 {
      assert multiset(s)[x] >= multiset(h)[x];
    }
    assert multiset(s)[top] == multiset(h)[top] + 1;
    forall y | y in h ensures y.ticket != top.ticket {
      assert y in multiset(h) && y in multiset(s) && top in multiset(s);
    }
  }

  /** There is only one ranked arrangement of a bag, so the drain order does not
      depend on how the heap happens to be laid out. */
  lemma {:induction false} RankedUnique(a: seq<Ordered>, b: seq<Ordered>)
    requires Ranked(a) && Ranked(b) && multiset(a) == multiset(b)
    ensures a == b
  {
    assert |a| == |multiset(a)| == |multiset(b)| == |b|;
    if a != [] {
      SameHead(a, b);
      assert a == [a[0]] + a[1..] && b == [b[0]] + b[1..];
      assert multiset(a[1..]) == multiset(a) - multiset{a[0]};
      assert multiset(b[1..]) == multiset(b) - multiset{b[0]};
      RankedUnique(a[1..], b[1..]);
    }
  }

  lemma SameHead(a: seq<Ordered>, b: seq<Ordered>)
    requires Ranked(a) && Ranked(b) && multiset(a) == multiset(b) && a != [] && b != []
    ensures a[0] == b[0]
  {
    InBag(a, b, a[0]);
    InBag(a, b, b[0]);
    var i :| 0 <= i < |b| && b[i] == a[0];
    var j :| 0 <= j < |a| && a[j] == b[0];
    assert i > 0 ==> Beats(b[0], b[i]);
    assert j > 0 ==> Beats(a[0], a[j]);
  }

  /** In a ranked list the position of an entry is the number of entries that beat it. */
  lemma RankIsPosition(s: seq<Ordered>, r: nat)
    requires Ranked(s) && r < |s|
    ensures forall i :: 0 <= i < |s| ==> (Beats(s[i], s[r]) <==> i < r)
  {
    forall i | 0 <= i < |s| ensures Beats(s[i], s[r]) <==> i < r {
      if r < i { assert Beats(s[r], s[i]); }
    }
  }

  // ---------------------------------------------------------------- binary heap

  /** Position `c` does not beat its parent. */
  ghost predicate InPlace(h: seq<Ordered>, c: nat)
    requires 0 < c < |h|
  {
    !Beats(h[c], h[(c - 1) / 2])
  }

  ghost predicate IsHeap(h: seq<Ordered>) {
    forall k :: 0 < k < |h| ==> InPlace(h, k)
  }

  /** Every position but the children of `k` is in place, and those children do not
      beat the parent of `k`: the shape a sift leaves between two swaps. */
  ghost predicate HoleAbove(h: seq<Ordered>, k: nat)
  {
    (forall c :: 0 < c < |h| && (c - 1) / 2 != k ==> InPlace(h, c)) &&
    (0 < k < |h| ==> GrandOk(h, k))
  }

  ghost predicate GrandOk(h: seq<Ordered>, k: nat)
    requires 0 < k < |h|
  {
    (2 * k + 1 < |h| ==> !Beats(h[2 * k + 1], h[(k - 1) / 2])) &&
    (2 * k + 2 < |h| ==> !Beats(h[2 * k + 2], h[(k - 1) / 2]))
  }

  lemma {:induction false} RootBeats(h: seq<Ordered>, k: nat)
    requires IsHeap(h) && k < |h|
    ensures !Beats(h[k], h[0])
  {
    if k > 0 {
      assert InPlace(h, k);
      RootBeats(h, (k - 1) / 2);
    }
  }

  function Swap(h: seq<Ordered>, i: nat, j: nat): (r: seq<Ordered>)
    requires i < |h| && j < |h|
    ensures |r| == |h| && multiset(r) == multiset(h)
    ensures r[i] == h[j] && r[j] == h[i]
    ensures forall k :: 0 <= k < |h| && k != i && k != j ==> r[k] == h[k]
  {
    h[i := h[j]][j := h[i]]
  }

  method SiftUp(s: seq<Ordered>) returns (h: seq<Ordered>)
    requires s != [] && IsHeap(s[..|s| - 1])
    ensures IsHeap(h) && multiset(h) == multiset(s)
  {
    h := s;
    var k := |s| - 1;
    forall c | 0 < c < |h| && c != k ensures InPlace(h, c) {
      assert InPlace(s[..|s| - 1], c);
    }
    while k > 0
      invariant 0 <= k < |h| && |h| == |s|
      invariant multiset(h) == multiset(s)
      invariant OffAt(h, k)
    {
      var p := (k - 1) / 2;
      if !Beats(h[k], h[p]) {
        assert InPlace(h, k);
        return;
      }
      ghost var h0 := h;
      h := Swap(h, p, k);
      SwapMovesUp(h0, k, h);
      k := p;
    }
  }

  /** Every position but `k` is in place, and its children do not beat its parent. */
  ghost predicate OffAt(h: seq<Ordered>, k: nat) {
    (forall c :: 0 < c < |h| && c != k ==> InPlace(h, c)) && (0 < k < |h| ==> GrandOk(h, k))
  }

  lemma SwapMovesUp(h0: seq<Ordered>, k: nat, h: seq<Ordered>)
    requires 0 < k < |h0| && OffAt(h0, k) && Beats(h0[k], h0[(k - 1) / 2])
    requires h == Swap(h0, (k - 1) / 2, k)
    ensures OffAt(h, (k - 1) / 2)
  {
    var p := (k - 1) / 2;
    forall c | 0 < c < |h| && c != p ensures InPlace(h, c) {
      if c != k { assert InPlace(h0, c); }
    }
    if p > 0 {
      assert InPlace(h0, p);
      assert 2 * p + 1 < |h| && 2 * p + 1 != k ==> InPlace(h0, 2 * p + 1);
      assert 2 * p + 2 < |h| && 2 * p + 2 != k ==> InPlace(h0, 2 * p + 2);
    }
  }

  function GreaterChild(h: seq<Ordered>, k: nat): (c: nat)
    requires 2 * k + 1 < |h|
    ensures k < c < |h|
  {
    if 2 * k + 2 < |h| && Beats(h[2 * k + 2], h[2 * k + 1]) then 2 * k + 2 else 2 * k + 1
  }

  method SiftDown(s: seq<Ordered>) returns (h: seq<Ordered>)
    requires HoleAbove(s, 0)
    ensures IsHeap(h) && multiset(h) == multiset(s)
  {
    h := s;
    var k := 0;
    while 2 * k + 1 < |h|
      invariant 0 <= k && |h| == |s|
      invariant multiset(h) == multiset(s)
      invariant HoleAbove(h, k)
      decreases |h| - k
    {
      var c := GreaterChild(h, k);
      if !Beats(h[c], h[k]) {
        HoleFilled(h, k);
        return;
      }
      ghost var h0 := h;
      h := Swap(h, k, c);
      SwapMovesHole(h0, k, c, h);
      k := c;
    }
    HoleFilled(h, k);
  }

  lemma HoleFilled(h: seq<Ordered>, k: nat)
    requires HoleAbove(h, k)
    requires 2 * k + 1 < |h| ==> !Beats(h[GreaterChild(h, k)], h[k])
    ensures IsHeap(h)
  {
    forall j | 0 < j < |h| ensures InPlace(h, j) {
      if (j - 1) / 2 == k { assert j == 2 * k + 1 || j == 2 * k + 2; }
    }
  }

  lemma SwapMovesHole(h0: seq<Ordered>, k: nat, c: nat, h: seq<Ordered>)
    requires HoleAbove(h0, k) && 2 * k + 1 < |h0| && c == GreaterChild(h0, k)
    requires h == Swap(h0, k, c) && Beats(h0[c], h0[k])
    ensures HoleAbove(h, c)
  {
    forall j | 0 < j < |h| && (j - 1) / 2 != c ensures InPlace(h, j) {
      if (j - 1) / 2 == k {
        assert j == 2 * k + 1 || j == 2 * k + 2;
      } else {
        assert InPlace(h0, j);
      }
    }
    assert 2 * c + 1 < |h| ==> InPlace(h0, 2 * c + 1);
    assert 2 * c + 2 < |h| ==> InPlace(h0, 2 * c + 2);
  }

  method HeapPush(s: seq<Ordered>, x: Ordered) returns (h: seq<Ordered>)
    requires IsHeap(s)
    ensures IsHeap(h) && multiset(h) == multiset(s) + multiset{x}
  {
    assert (s + [x])[..|s|] == s;
    h := SiftUp(s + [x]);
  }

  /** Removes the greatest entry: it beats every entry left behind. */
  method HeapPop(s: seq<Ordered>) returns (top: Ordered, h: seq<Ordered>)
    requires IsHeap(s) && Distinct(multiset(s)) && s != []
    ensures IsHeap(h) && multiset(h) + multiset{top} == multiset(s)
    ensures forall y :: y in h ==> Beats(top, y)
  {
    top := s[0];
    var last := s[|s| - 1];
    var rest := s[..|s| - 1];
    assert s == rest + [last];
    if rest == [] {
      h := [];
    } else {
      assert rest == [top] + rest[1..];
      var moved := rest[0 := last];
      assert moved == [last] + rest[1..];
      forall c | 0 < c < |moved| && (c - 1) / 2 != 0 ensures InPlace(moved, c) {
        assert InPlace(s, c);
      }
      h := SiftDown(moved);
    }
    forall y | y in h ensures Beats(top, y) {
      PoppedBeats(s, top, h, y);
    }
  }

  lemma PoppedBeats(s: seq<Ordered>, top: Ordered, h: seq<Ordered>, y: Ordered)
    requires IsHeap(s) && Distinct(multiset(s)) && s != [] && top == s[0]
    requires multiset(h) + multiset{top} == multiset(s) && y in h
    ensures Beats(top, y)
  {
    DistinctSub(s, top, h);
    assert multiset(h + [top]) == multiset(s);
    InBag(h + [top], s, y);
    var k :| 0 <= k < |s| && s[k] == y;
    RootBeats(s, k);
  }

  /** Refinement of one heap pop: it delivers the head of the only ranked arrangement
      of the bag, and leaves the tail. */
  lemma PopIsHead(s: seq<Ordered>, pending: seq<Ordered>, top: Ordered, h: seq<Ordered>)
    requires Ranked(pending) && multiset(s) == multiset(pending)
    requires multiset(h) + multiset{top} == multiset(s)
    requires forall y :: y in h ==> Beats(top, y)
    ensures pending != [] && pending[0] == top && multiset(h) == multiset(pending[1..])
  {
    assert top in multiset(s) && top in pending;
    assert pending == [pending[0]] + pending[1..];
    assert multiset(pending[1..]) == multiset(pending) - multiset{pending[0]};
    InBag(s, pending, pending[0]);
    assert multiset(s) == multiset(h + [top]);
    InBag(s, h + [top], pending[0]);
    var j :| 0 <= j < |pending| && pending[j] == top;
    assert j > 0 ==> Beats(pending[0], pending[j]);
    assert pending[0] in h ==> Beats(top, pending[0]);
    assert pending[0] == top;
    assert multiset(h) == multiset(s) - multiset{top};
  }
}
