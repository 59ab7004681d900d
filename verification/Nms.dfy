/** Greedy non-maximum suppression of benches/detection_bench.rs, over real numbers. */
module NonMaximumSuppression {
  datatype BBox = BBox(x1: real, y1: real, x2: real, y2: real, score: real, classId: nat)

  function Max(a: real, b: real): real { if a >= b then a else b }

  function Min(a: real, b: real): real { if a <= b then a else b }

  function Side(lo: real, hi: real): real { Max(hi - lo, 0.0) }

  function Area(b: BBox): real { Side(b.x1, b.x2) * Side(b.y1, b.y2) }

  function Inter(a: BBox, b: BBox): real {
    Side(Max(a.x1, b.x1), Min(a.x2, b.x2)) * Side(Max(a.y1, b.y1), Min(a.y2, b.y2))
  }

  function Iou(a: BBox, b: BBox): real {
    var union := Area(a) + Area(b) - Inter(a, b);
    if union > 0.0 then Inter(a, b) / union else 0.0
  }

  lemma ProductMonotone(a: real, b: real, c: real, d: real)
    requires 0.0 <= a <= c && 0.0 <= b <= d
    ensures 0.0 <= a * b <= c * d
  {
  }

  /** The overlap is no larger than either box, however degenerate the boxes are. */
  lemma InterWithin(a: BBox, b: BBox)
    ensures 0.0 <= Inter(a, b) <= Area(a) && Inter(a, b) <= Area(b)
  {
    var w, h := Side(Max(a.x1, b.x1), Min(a.x2, b.x2)), Side(Max(a.y1, b.y1), Min(a.y2, b.y2));
    ProductMonotone(w, h, Side(a.x1, a.x2), Side(a.y1, a.y2));
    ProductMonotone(w, h, Side(b.x1, b.x2), Side(b.y1, b.y2));
  }

  lemma FractionRange(n: real, d: real)
    requires 0.0 <= n <= d && d > 0.0
    ensures 0.0 <= n / d <= 1.0
  {
  }

  lemma InterSymmetric(a: BBox, b: BBox)
    ensures Inter(a, b) == Inter(b, a) && Inter(a, a) == Area(a)
  {
  }

  lemma SelfFraction(n: real)
    requires n > 0.0
    ensures n / n == 1.0
  {
  }

  /** `iou` is symmetric, lies in [0, 1], and is 1 for a box of positive area with itself. */
  lemma IouLaws(a: BBox, b: BBox)
    ensures Iou(a, b) == Iou(b, a) && 0.0 <= Iou(a, b) <= 1.0
    ensures Area(a) > 0.0 ==> Iou(a, a) == 1.0
  {
    InterWithin(a, b);
    InterSymmetric(a, b);
    hide Inter, Area;
    var union := Area(a) + Area(b) - Inter(a, b);
    if union > 0.0 { FractionRange(Inter(a, b), union); }
    if Area(a) > 0.0 {
      InterSymmetric(a, a);
      SelfFraction(Area(a));
      assert Area(a) + Area(a) - Inter(a, a) == Area(a);
    }
  }

  /** The point lies in the box, edges included. */
  predicate Contains(b: BBox, x: real, y: real) { b.x1 <= x <= b.x2 && b.y1 <= y <= b.y2 }

  /** The plain area of a box whose edges are in order. */
  function PlainArea(b: BBox): real { (b.x2 - b.x1) * (b.y2 - b.y1) }

  predicate Proper(b: BBox) { b.x1 <= b.x2 && b.y1 <= b.y2 }

  /** What `iou` measures: when `c` is the box of all points common to `a` and `b`, the area of
      `c` over the area that `a` and `b` cover together. */
  lemma IouIsAreaRatio(a: BBox, b: BBox, c: BBox)
    requires Proper(a) && Proper(b) && Proper(c)
    requires forall x, y :: Contains(c, x, y) <==> Contains(a, x, y) && Contains(b, x, y)
    ensures var covered := PlainArea(a) + PlainArea(b) - PlainArea(c);
            if covered > 0.0 then Iou(a, b) * covered == PlainArea(c) else Iou(a, b) == 0.0
  {
    CommonBox(a, b, c);
    PlainAreas(a, b, c);
    hide Area, Inter, PlainArea, Contains;
    var covered := PlainArea(a) + PlainArea(b) - PlainArea(c);
    if covered > 0.0 { DivideBack(PlainArea(c), covered); }
  }

  lemma CommonBox(a: BBox, b: BBox, c: BBox)
    requires Proper(c) && forall x, y :: Contains(c, x, y) <==> Contains(a, x, y) && Contains(b, x, y)
    ensures c.x1 == Max(a.x1, b.x1) && c.x2 == Min(a.x2, b.x2) && c.y1 == Max(a.y1, b.y1) && c.y2 == Min(a.y2, b.y2)
  {
    assert Contains(c, c.x1, c.y1) && Contains(c, c.x2, c.y2);
    var l, r, t, d := Max(a.x1, b.x1), Min(a.x2, b.x2), Max(a.y1, b.y1), Min(a.y2, b.y2);
    assert Contains(a, l, t) && Contains(b, l, t) && Contains(a, r, d) && Contains(b, r, d);
    assert Contains(c, l, t) && Contains(c, r, d);
  }

  lemma PlainAreas(a: BBox, b: BBox, c: BBox)
    requires Proper(a) && Proper(b) && Proper(c)
    requires c.x1 == Max(a.x1, b.x1) && c.x2 == Min(a.x2, b.x2) && c.y1 == Max(a.y1, b.y1) && c.y2 == Min(a.y2, b.y2)
    ensures Area(a) == PlainArea(a) && Area(b) == PlainArea(b) && Inter(a, b) == PlainArea(c)
  {
  }

  lemma DivideBack(n: real, d: real)
    requires d > 0.0
    ensures n / d * d == n
  {
  }

  /** Boxes without a common point do not overlap. */
  lemma ApartMeansZero(a: BBox, b: BBox)
    requires forall x, y :: !(Contains(a, x, y) && Contains(b, x, y))
    ensures Iou(a, b) == 0.0
  {
    var x, y := Max(a.x1, b.x1), Max(a.y1, b.y1);
    assert !(Contains(a, x, y) && Contains(b, x, y));
    NoWidthNoArea(Side(x, Min(a.x2, b.x2)), Side(y, Min(a.y2, b.y2)));
    assert Inter(a, b) == 0.0;
    hide Inter, Area;
    if Area(a) + Area(b) > 0.0 { ZeroOver(Area(a) + Area(b)); }
  }

  lemma NoWidthNoArea(w: real, h: real)
    ensures w == 0.0 || h == 0.0 ==> w * h == 0.0
  {
  }

  lemma ZeroOver(d: real)
    requires d > 0.0
    ensures 0.0 / d == 0.0
  {
  }

  // ---------------------------------------------------------------- the greedy list

  predicate Suppresses(a: BBox, b: BBox, threshold: real) {
    a.classId == b.classId && Iou(a, b) > threshold
  }

  predicate Blocked(kept: seq<BBox>, b: BBox, threshold: real) {
    exists i :: 0 <= i < |kept| && Suppresses(kept[i], b, threshold)
  }

  /** A box is kept exactly when no earlier kept box suppresses it. */
  function Greedy(s: seq<BBox>, threshold: real): seq<BBox> {
    if s == [] then []
    else
      var kept, last := Greedy(s[..|s| - 1], threshold), s[|s| - 1];
      if Blocked(kept, last, threshold) then kept else kept + [last]
  }

  /** The boxes a selection marks. */
  function Selected(s: seq<BBox>, keep: seq<bool>): seq<BBox>
    requires |keep| == |s|
  {
    if s == [] then []
    else Selected(s[..|s| - 1], keep[..|s| - 1]) + (if keep[|s| - 1] then [s[|s| - 1]] else [])
  }

  /** The defining rule, position by position. */
  ghost predicate Rule(s: seq<BBox>, keep: seq<bool>, threshold: real)
    requires |keep| == |s|
  {
    forall i :: 0 <= i < |s| ==>
      (keep[i] <==> forall j :: 0 <= j < i && keep[j] ==> !Suppresses(s[j], s[i], threshold))
  }

  lemma {:induction false} SelectedBlocks(s: seq<BBox>, keep: seq<bool>, b: BBox, threshold: real)
    requires |keep| == |s|
    ensures Blocked(Selected(s, keep), b, threshold) <==>
      exists j :: 0 <= j < |s| && keep[j] && Suppresses(s[j], b, threshold)
  {
    if s != [] {
      var n := |s| - 1;
      var init := Selected(s[..n], keep[..n]);
      var all := Selected(s, keep);
      SelectedBlocks(s[..n], keep[..n], b, threshold);
      if Blocked(all, b, threshold) {
        var i :| 0 <= i < |all| && Suppresses(all[i], b, threshold);
        if i < |init| {
          assert all[i] == init[i];
        } else {
          assert keep[n] && all[i] == s[n];
        }
      }
      if Blocked(init, b, threshold) {
        var i :| 0 <= i < |init| && Suppresses(init[i], b, threshold);
        assert all[i] == init[i];
      }
      if keep[n] && Suppresses(s[n], b, threshold) {
        assert all[|init|] == s[n];
      }
    }
  }

  /** Every selection obeying the rule is the greedy one. */
  lemma {:induction false} RuleDeterminesResult(s: seq<BBox>, keep: seq<bool>, threshold: real)
    requires |keep| == |s| && Rule(s, keep, threshold)
    ensures Selected(s, keep) == Greedy(s, threshold)
  {
    hide Suppresses, Blocked;
    if s != [] {
      var n := |s| - 1;
      RuleOfPrefix(s, keep, threshold);
      RuleDeterminesResult(s[..n], keep[..n], threshold);
      SelectedBlocks(s[..n], keep[..n], s[n], threshold);
      assert forall j :: 0 <= j < n ==> keep[..n][j] == keep[j] && s[..n][j] == s[j];
      assert keep[n] <==> forall j :: 0 <= j < n && keep[j] ==> !Suppresses(s[j], s[n], threshold);
    }
  }

  lemma RuleOfPrefix(s: seq<BBox>, keep: seq<bool>, threshold: real)
    requires |keep| == |s| && s != [] && Rule(s, keep, threshold)
    ensures Rule(s[..|s| - 1], keep[..|s| - 1], threshold)
  {
    hide Suppresses;
    var n := |s| - 1;
    var t, k := s[..n], keep[..n];
    assert forall j :: 0 <= j < n ==> k[j] == keep[j] && t[j] == s[j];
    forall i | 0 <= i < n ensures k[i] <==> forall j :: 0 <= j < i && k[j] ==> !Suppresses(t[j], t[i], threshold) {
      assert keep[i] <==> forall j :: 0 <= j < i && keep[j] ==> !Suppresses(s[j], s[i], threshold);
    }
  }

  lemma RuleSnoc(s: seq<BBox>, keep: seq<bool>, b: BBox, k: bool, threshold: real)
    requires |keep| == |s| && Rule(s, keep, threshold)
    requires k <==> forall j :: 0 <= j < |s| && keep[j] ==> !Suppresses(s[j], b, threshold)
    ensures Rule(s + [b], keep + [k], threshold)
  {
    hide Suppresses;
    var t, all, n := s + [b], keep + [k], |s|;
    assert forall j :: 0 <= j < n ==> t[j] == s[j] && all[j] == keep[j];
    forall i | 0 <= i < |t| ensures all[i] <==> forall j :: 0 <= j < i && all[j] ==> !Suppresses(t[j], t[i], threshold) {
      if i < n {
        assert keep[i] <==> forall j :: 0 <= j < i && keep[j] ==> !Suppresses(s[j], s[i], threshold);
      }
    }
  }

  /** And the greedy list does obey it: each box it drops is suppressed by an earlier box it
      keeps. With the lemma above it is the one sub-list that the rule allows. */
  lemma {:induction false} GreedyObeysRule(s: seq<BBox>, threshold: real) returns (keep: seq<bool>)
    ensures |keep| == |s| && Rule(s, keep, threshold) && Selected(s, keep) == Greedy(s, threshold)
  {
    hide Suppresses, Blocked, Rule;
    if s == [] {
      keep := [];
      NothingObeys(threshold);
    } else {
      var n := |s| - 1;
      var init := GreedyObeysRule(s[..n], threshold);
      SelectedBlocks(s[..n], init, s[n], threshold);
      var k := !Blocked(Greedy(s[..n], threshold), s[n], threshold);
      RuleSnoc(s[..n], init, s[n], k, threshold);
      keep := init + [k];
      assert keep[..n] == init && s == s[..n] + [s[n]];
    }
  }

  lemma NothingObeys(threshold: real)
    ensures Rule([], [], threshold)
  {
  }

  /** No two kept boxes of one class overlap above the threshold. */
  ghost predicate Apart(k: seq<BBox>, threshold: real) {
    forall i, j :: 0 <= i < j < |k| ==> !Suppresses(k[i], k[j], threshold)
  }

  lemma ApartSnoc(k: seq<BBox>, b: BBox, threshold: real)
    ensures Apart(k + [b], threshold) <==> Apart(k, threshold) && !Blocked(k, b, threshold)
  {
    hide Suppresses;
    var all := k + [b];
    assert forall i :: 0 <= i < |k| ==> all[i] == k[i];
    if Apart(all, threshold) {
      forall i | 0 <= i < |k| ensures !Suppresses(k[i], b, threshold) { assert !Suppresses(all[i], all[|k|], threshold); }
      forall i, j | 0 <= i < j < |k| ensures !Suppresses(k[i], k[j], threshold) {
        assert !Suppresses(all[i], all[j], threshold);
      }
    }
  }

  lemma {:induction false} KeptAreApart(s: seq<BBox>, threshold: real)
    ensures Apart(Greedy(s, threshold), threshold)
  {
    hide Apart, Blocked;
    if s == [] {
      NothingApart(threshold);
    } else {
      KeptAreApart(s[..|s| - 1], threshold);
      ApartSnoc(Greedy(s[..|s| - 1], threshold), s[|s| - 1], threshold);
    }
  }

  lemma NothingApart(threshold: real)
    ensures Apart([], threshold)
  {
  }

  lemma {:induction false} ApartIsFixed(s: seq<BBox>, threshold: real)
    requires Apart(s, threshold)
    ensures Greedy(s, threshold) == s
  {
    hide Apart, Blocked;
    if s != [] {
      assert s == s[..|s| - 1] + [s[|s| - 1]];
      ApartSnoc(s[..|s| - 1], s[|s| - 1], threshold);
      ApartIsFixed(s[..|s| - 1], threshold);
    }
  }

  /** Standing apart does not depend on the order. */
  ghost predicate BagApart(bag: multiset<BBox>, threshold: real) {
    forall a, b :: a in bag && b in bag && (a != b || bag[a] > 1) ==> !Suppresses(a, b, threshold)
  }

  lemma SuppressesSymmetric(a: BBox, b: BBox, threshold: real)
    ensures Suppresses(a, b, threshold) == Suppresses(b, a, threshold)
  {
    IouLaws(a, b);
  }

  lemma TwoPlaces(s: seq<BBox>, a: BBox) returns (i: nat, j: nat)
    requires multiset(s)[a] > 1
    ensures i < j < |s| && s[i] == a && s[j] == a
  {
    assert a in s;
    i :| i < |s| && s[i] == a;
    assert s == s[..i] + [a] + s[i + 1..];
    if a in s[..i] {
      var k :| 0 <= k < i && s[..i][k] == a;
      i, j := k, i;
    } else {
      assert multiset(s)[a] == multiset(s[..i])[a] + 1 + multiset(s[i + 1..])[a];
      assert a in s[i + 1..];
      var k :| 0 <= k < |s| - i - 1 && s[i + 1..][k] == a;
      j := i + 1 + k;
    }
  }

  lemma ApartIsBagApart(k: seq<BBox>, threshold: real)
    ensures Apart(k, threshold) <==> BagApart(multiset(k), threshold)
  {
    hide Suppresses;
    if Apart(k, threshold) {
      forall a, b | a in k && b in k && (a != b || multiset(k)[a] > 1) ensures !Suppresses(a, b, threshold) {
        SuppressesSymmetric(a, b, threshold);
        if a == b {
          var i, j := TwoPlaces(k, a);
          assert !Suppresses(k[i], k[j], threshold);
        } else {
          var i :| 0 <= i < |k| && k[i] == a;
          var j :| 0 <= j < |k| && k[j] == b;
          assert i < j ==> !Suppresses(k[i], k[j], threshold);
          assert j < i ==> !Suppresses(k[j], k[i], threshold);
        }
      }
    }
    if BagApart(multiset(k), threshold) {
      forall i, j | 0 <= i < j < |k| ensures !Suppresses(k[i], k[j], threshold) {
        assert k[i] in multiset(k) && k[j] in multiset(k);
        if k[i] == k[j] {
          assert k == k[..j] + k[j..] && k[..j][i] == k[i] && k[j..][0] == k[i];
          assert k[i] in k[..j] && k[i] in k[j..];
          assert multiset(k)[k[i]] == multiset(k[..j])[k[i]] + multiset(k[j..])[k[i]];
        }
      }
    }
  }

  /** Suppressing again changes nothing, in whatever order the unstable sort presents the
      boxes that were kept. */
  lemma GreedyIsIdempotent(s: seq<BBox>, threshold: real, order: seq<BBox>)
    requires multiset(order) == multiset(Greedy(s, threshold))
    ensures Greedy(order, threshold) == order
  {
    KeptAreApart(s, threshold);
    ApartIsBagApart(Greedy(s, threshold), threshold);
    ApartIsBagApart(order, threshold);
    ApartIsFixed(order, threshold);
  }

  lemma {:induction false} GreedyMembers(s: seq<BBox>, threshold: real)
    ensures multiset(Greedy(s, threshold)) <= multiset(s)
    ensures forall k :: k in Greedy(s, threshold) ==> k in s
  {
    hide Blocked;
    if s != [] {
      GreedyMembers(s[..|s| - 1], threshold);
      assert s == s[..|s| - 1] + [s[|s| - 1]];
    }
  }

  lemma {:induction false} GreedySorted(s: seq<BBox>, threshold: real)
    requires Descending(s)
    ensures Descending(Greedy(s, threshold))
  {
    if s != [] {
      LastIsLeast(s);
      hide Descending, Blocked;
      GreedySorted(s[..|s| - 1], threshold);
      GreedyMembers(s[..|s| - 1], threshold);
      DescendingSnoc(Greedy(s[..|s| - 1], threshold), s[|s| - 1]);
    }
  }

  /** Every box dropped from a sorted list has a kept box that suppresses it and scores no
      less. */
  lemma {:induction false} GreedyCovers(s: seq<BBox>, threshold: real)
    requires Descending(s)
    ensures forall b :: b in s ==> b in Greedy(s, threshold) || Covered(Greedy(s, threshold), b, threshold)
  {
    if s != [] {
      var n := |s| - 1;
      var init, kept, last := Greedy(s[..n], threshold), Greedy(s, threshold), s[n];
      LastIsLeast(s);
      hide Iou, Descending;
      GreedyCovers(s[..n], threshold);
      GreedyMembers(s[..n], threshold);
      forall b | b in s ensures b in kept || Covered(kept, b, threshold) {
        if b in s[..n] {
          if b !in init {
            var k :| k in init && k.classId == b.classId && Iou(k, b) > threshold && k.score >= b.score;
            assert k in kept;
          }
        } else {
          assert s == s[..n] + [last] && b == last;
          if Blocked(init, last, threshold) {
            var i :| 0 <= i < |init| && Suppresses(init[i], last, threshold);
            assert init[i] in s[..n] && init[i] in kept;
          }
        }
      }
    }
  }

  lemma LastIsLeast(s: seq<BBox>)
    requires s != [] && Descending(s)
    ensures Descending(s[..|s| - 1]) && forall k :: k in s[..|s| - 1] ==> k.score >= s[|s| - 1].score
  {
  }

  lemma DescendingSnoc(s: seq<BBox>, b: BBox)
    requires Descending(s) && forall k :: k in s ==> k.score >= b.score
    ensures Descending(s + [b])
  {
  }

  /** A kept box of the class overlaps `b` above the threshold and scores no less. */
  ghost predicate Covered(kept: seq<BBox>, b: BBox, threshold: real) {
    exists k :: k in kept && k.classId == b.classId && Iou(k, b) > threshold && k.score >= b.score
  }

  function OfClass(s: seq<BBox>, c: nat): seq<BBox> {
    if s == [] then []
    else OfClass(s[..|s| - 1], c) + (if s[|s| - 1].classId == c then [s[|s| - 1]] else [])
  }

  lemma OfClassSnoc(s: seq<BBox>, b: BBox, c: nat)
    ensures OfClass(s + [b], c) == OfClass(s, c) + (if b.classId == c then [b] else [])
  {
  }

  lemma {:induction false} ClassBlocks(s: seq<BBox>, b: BBox, threshold: real)
    ensures Blocked(OfClass(s, b.classId), b, threshold) <==> Blocked(s, b, threshold)
  {
    if s != [] {
      var n := |s| - 1;
      var init, all := OfClass(s[..n], b.classId), OfClass(s, b.classId);
      ClassBlocks(s[..n], b, threshold);
      if Blocked(all, b, threshold) {
        var i :| 0 <= i < |all| && Suppresses(all[i], b, threshold);
        if i < |init| {
          assert all[i] == init[i];
          assert Blocked(s[..n], b, threshold);
          var j :| 0 <= j < n && Suppresses(s[..n][j], b, threshold);
          assert s[j] == s[..n][j];
        } else {
          assert all[i] == s[n];
        }
      }
      if Blocked(s, b, threshold) {
        var j :| 0 <= j < |s| && Suppresses(s[j], b, threshold);
        if j < n {
          assert s[..n][j] == s[j];
          var i :| 0 <= i < |init| && Suppresses(init[i], b, threshold);
          assert all[i] == init[i];
        } else {
          assert all[|init|] == s[n];
        }
      }
    }
  }

  /** Classes do not interact: the result for a class is the result of its boxes alone. */
  lemma {:induction false} ClassesAreIndependent(s: seq<BBox>, threshold: real, c: nat)
    ensures OfClass(Greedy(s, threshold), c) == Greedy(OfClass(s, c), threshold)
  {
    hide Blocked;
    if s != [] {
      var n := |s| - 1;
      var kept, last, own := Greedy(s[..n], threshold), s[n], OfClass(s[..n], c);
      ClassesAreIndependent(s[..n], threshold, c);
      OfClassSnoc(kept, last, c);
      if last.classId == c {
        ClassBlocks(kept, last, threshold);
        assert OfClass(s, c) == own + [last] && (own + [last])[..|own|] == own;
      } else {
        assert OfClass(s, c) == own;
      }
    }
  }

  // ---------------------------------------------------------------- the loops

  predicate Descending(s: seq<BBox>) {
    forall i, j :: 0 <= i < j < |s| ==> s[i].score >= s[j].score
  }

  /** The two nested loops over a score-sorted list and its `suppressed` flags. */
  method Suppress(boxes: seq<BBox>, threshold: real) returns (kept: seq<BBox>)
    ensures kept == Greedy(boxes, threshold)
  {
    kept := [];
    var suppressed := new bool[|boxes|](_ => false);
    for i := 0 to |boxes|
      invariant kept == Greedy(boxes[..i], threshold)
      invariant forall j :: i <= j < |boxes| ==> (suppressed[j] <==> Blocked(kept, boxes[j], threshold))
    {
      assert boxes[..i + 1][..i] == boxes[..i];
      if suppressed[i] {
        continue;
      }
      ghost var before := kept;
      kept := kept + [boxes[i]];
      for j := i + 1 to |boxes|
        invariant forall k :: i < k < j ==>
          (suppressed[k] <==> Blocked(before, boxes[k], threshold) || Suppresses(boxes[i], boxes[k], threshold))
        invariant forall k :: j <= k < |boxes| ==> (suppressed[k] <==> Blocked(before, boxes[k], threshold))
      {
        if !suppressed[j] && boxes[i].classId == boxes[j].classId {
          if Iou(boxes[i], boxes[j]) > threshold {
            suppressed[j] := true;
          }
        }
      }
      forall k | i < k < |boxes| ensures suppressed[k] <==> Blocked(kept, boxes[k], threshold) {
        BlockedSnoc(before, boxes[i], boxes[k], threshold);
      }
    }
    assert boxes[..|boxes|] == boxes;
  }

  lemma BlockedSnoc(kept: seq<BBox>, a: BBox, b: BBox, threshold: real)
    ensures Blocked(kept + [a], b, threshold) <==> Blocked(kept, b, threshold) || Suppresses(a, b, threshold)
  {
    var all := kept + [a];
    if Blocked(kept, b, threshold) {
      var i :| 0 <= i < |kept| && Suppresses(kept[i], b, threshold);
      assert all[i] == kept[i];
    }
    if Suppresses(a, b, threshold) { assert all[|kept|] == a; }
  }

  function InsertByScore(b: BBox, s: seq<BBox>): seq<BBox> {
    if s == [] || b.score >= s[0].score then [b] + s else [s[0]] + InsertByScore(b, s[1..])
  }

  function SortByScore(s: seq<BBox>): seq<BBox> {
    if s == [] then [] else InsertByScore(s[0], SortByScore(s[1..]))
  }

  lemma {:induction false} InsertSorted(b: BBox, s: seq<BBox>)
    requires Descending(s)
    ensures Descending(InsertByScore(b, s)) && multiset(InsertByScore(b, s)) == multiset(s) + multiset{b}
    ensures forall x :: x in InsertByScore(b, s) <==> x == b || x in s
  {
    if s == [] || b.score >= s[0].score {
      ConsDescending(b, s);
    } else {
      InsertSorted(b, s[1..]);
      assert s == [s[0]] + s[1..];
      forall x | x in InsertByScore(b, s[1..]) ensures s[0].score >= x.score { }
      ConsDescending(s[0], InsertByScore(b, s[1..]));
    }
  }

  lemma ConsDescending(b: BBox, s: seq<BBox>)
    requires Descending(s) && (s != [] ==> b.score >= s[0].score)
    ensures Descending([b] + s)
  {
  }

  lemma {:induction false} SortSorts(s: seq<BBox>)
    ensures Descending(SortByScore(s)) && multiset(SortByScore(s)) == multiset(s)
  {
    if s != [] {
      SortSorts(s[1..]);
      InsertSorted(s[0], SortByScore(s[1..]));
      assert s == [s[0]] + s[1..];
    }
  }

  /** A descending arrangement of the boxes: what an unstable sort may leave. */
  predicate Arranges(order: seq<BBox>, boxes: seq<BBox>) {
    Descending(order) && multiset(order) == multiset(boxes)
  }

  /** The sort is unstable: the input is put in some descending order, and the result is the
      greedy list of that order. */
  method Nms(boxes: seq<BBox>, threshold: real) returns (kept: seq<BBox>)
    ensures exists order :: Arranges(order, boxes) && kept == Greedy(order, threshold)
    ensures multiset(kept) <= multiset(boxes)
    ensures forall i, j :: 0 <= i < j < |kept| ==> kept[i].score >= kept[j].score
    ensures forall i, j :: 0 <= i < j < |kept| && kept[i].classId == kept[j].classId ==>
      Iou(kept[i], kept[j]) <= threshold
    ensures forall b :: b in boxes && b !in kept ==>
      exists k :: k in kept && k.classId == b.classId && Iou(k, b) > threshold && k.score >= b.score
  {
    hide Greedy, Iou;
    SortSorts(boxes);
    assert Arranges(SortByScore(boxes), boxes);
    var order :| Arranges(order, boxes);
    kept := Suppress(order, threshold);
    NmsMeans(boxes, order, threshold);
  }

  /** What suppression gives: boxes of the input, best first, no two of a class overlapping
      above the threshold, and every other box overlapped by a kept one of its class that
      scores no less. */
  lemma NmsMeans(boxes: seq<BBox>, order: seq<BBox>, threshold: real)
    requires Arranges(order, boxes)
    ensures var kept := Greedy(order, threshold);
            multiset(kept) <= multiset(boxes) &&
            (forall i, j :: 0 <= i < j < |kept| ==> kept[i].score >= kept[j].score) &&
            (forall i, j :: 0 <= i < j < |kept| && kept[i].classId == kept[j].classId ==>
               Iou(kept[i], kept[j]) <= threshold) &&
            forall b :: b in boxes && b !in kept ==>
              exists k :: k in kept && k.classId == b.classId && Iou(k, b) > threshold && k.score >= b.score
  {
    var kept := Greedy(order, threshold);
    GreedyMembers(order, threshold);
    GreedySorted(order, threshold);
    GreedyCovers(order, threshold);
    KeptAreApart(order, threshold);
    hide Greedy, Iou;
    forall i, j | 0 <= i < j < |kept| && kept[i].classId == kept[j].classId ensures Iou(kept[i], kept[j]) <= threshold {
      assert !Suppresses(kept[i], kept[j], threshold);
    }
    forall b | b in boxes && b !in kept ensures Covered(kept, b, threshold) {
      assert b in multiset(boxes) && b in multiset(order);
    }
  }
}
