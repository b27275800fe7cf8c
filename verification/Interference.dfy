/** The `interference` subscore: what its closed formula counts. */
module Interference {
  import opened Arith

  type Pair = (nat, nat)

  /** `C(n, 2)` as the program computes it. */
  function Choose2(n: nat): (c: nat) {
    n * (n - 1) / 2
  }

  function Clip(x: real): real {
    if x < 0.0 then 0.0 else if x > 1.0 then 1.0 else x
  }

  function InterferenceFraction(checked: nat, pairCount: nat, skipped: nat): real {
    var total := Choose2(checked);
    if total == 0 then 0.0
    else
      var measurable := if checked <= skipped then 0 else Choose2(checked - skipped);
      Clip((measurable as real - pairCount as real) / total as real)
  }

  lemma ClippedShare(part: real, total: real)
    requires 0.0 < total && part <= total
    ensures Clip(part / total) * total == if part < 0.0 then 0.0 else part
  {
    var share := part / total;
    assert share * total == part;
    if share > 1.0 {
      Scaled(share, total);
    }
    if share < 0.0 && part >= 0.0 {
      Scaled(-share + 1.0, total);
    }
    if share >= 0.0 {
      QuotientAbove(share, total);
    }
  }

  lemma Scaled(x: real, total: real)
    requires x > 1.0 && total > 0.0
    ensures x * total > total
  {
    assert (x - 1.0) * total > 0.0;
  }

  lemma QuotientAbove(x: real, total: real)
    requires x >= 0.0 && total > 0.0
    ensures x * total >= 0.0
  {
  }

  lemma ChooseMonotone(a: nat, b: nat)
    requires a <= b
    ensures Choose2(a) <= Choose2(b)
  {
    if a > 0 {
      assert a * (a - 1) <= b * (b - 1) by {
        assert b * (b - 1) - a * (a - 1) == (b - a) * (a + b - 1);
      }
    }
  }

  /** Whatever the counts reported, the value is what is left of the pairs that could be measured when
      the overlapping ones are taken off, as a part of all pairs, and nothing when they exceed them or
      there is no pair. */
  lemma FractionMeans(checked: nat, pairCount: nat, skipped: nat)
    ensures checked < 2 ==> InterferenceFraction(checked, pairCount, skipped) == 0.0
    ensures checked >= 2 ==>
      var clean := (if checked <= skipped then 0 else Choose2(checked - skipped)) - pairCount;
      && Choose2(checked) > 0
      && InterferenceFraction(checked, pairCount, skipped) * Choose2(checked) as real
         == if clean < 0 then 0.0 else clean as real
  {
    if checked >= 2 {
      ChooseMonotone(2, checked);
      if checked > skipped {
        ChooseMonotone(checked - skipped, checked);
      }
      var measurable := if checked <= skipped then 0 else Choose2(checked - skipped);
      ClippedShare(measurable as real - pairCount as real, Choose2(checked) as real);
    }
  }

  // ------------------------------------------------------------ the assembly it is computed from

  /** Instances `0..count`, the ones that are meshes, and which two of them overlap. */
  datatype Assembly = Assembly(count: nat, meshes: set<nat>, overlaps: set<Pair>)

  function Instances(n: nat): (s: set<nat>)
    ensures forall i: nat :: i in s <==> i < n
    ensures |s| == n
  {
    if n == 0 then {} else Instances(n - 1) + {n - 1}
  }

  /** The unordered pairs within a set, smaller instance first. */
  function PairsWithin(s: set<nat>): set<Pair> {
    set i, j | i in s && j in s && i < j :: (i, j)
  }

  predicate Valid(a: Assembly) {
    a.meshes <= Instances(a.count) && a.overlaps <= PairsWithin(Instances(a.count))
  }

  function Measurable(a: Assembly): set<nat> {
    Instances(a.count) - a.meshes
  }

  /** What the interference check reports: it never compares a mesh. */
  function Reported(a: Assembly): set<Pair> {
    a.overlaps * PairsWithin(Measurable(a))
  }

  /** Both instances could be measured and they do not overlap. */
  function CleanPairs(a: Assembly): set<Pair> {
    PairsWithin(Measurable(a)) - a.overlaps
  }

  /** The score of an assembly. */
  function Score(a: Assembly): real {
    InterferenceFraction(a.count, |Reported(a)|, |a.meshes|)
  }

  // ------------------------------------------------------------ counting pairs

  function WithLast(s: set<nat>, m: nat): set<Pair> {
    set i | i in s :: (i, m)
  }

  lemma {:induction false} WithLastCount(s: set<nat>, m: nat)
    ensures |WithLast(s, m)| == |s|
  {
    if s != {} {
      var x :| x in s;
      WithLastCount(s - {x}, m);
      assert WithLast(s, m) == WithLast(s - {x}, m) + {(x, m)};
      assert (x, m) !in WithLast(s - {x}, m);
    }
  }

  lemma Largest(s: set<nat>) returns (m: nat)
    requires s != {}
    ensures m in s && forall x :: x in s ==> x <= m
  {
    var x :| x in s;
    if s == {x} {
      m := x;
    } else {
      var rest := s - {x};
      assert rest != {} by {
        assert s == {x} + rest;
      }
      var y := Largest(rest);
      m := if x >= y then x else y;
      assert forall z :: z in s ==> z == x || z in rest;
    }
  }

  lemma Choose2Step(n: nat)
    ensures Choose2(n + 1) == Choose2(n) + n
  {
    assert (n + 1) * n == n * (n - 1) + 2 * n;
  }

  lemma LastApart(s: set<nat>, m: nat)
    requires m in s && forall x :: x in s ==> x <= m
    ensures |PairsWithin(s)| == |PairsWithin(s - {m})| + |s - {m}|
  {
    var rest := s - {m};
    WithLastCount(rest, m);
    assert PairsWithin(s) == PairsWithin(rest) + WithLast(rest, m);
    assert PairsWithin(rest) !! WithLast(rest, m);
  }

  /** A set of `k` instances has `k (k - 1) / 2` unordered pairs. */
  lemma {:induction false} PairCount(s: set<nat>)
    ensures |PairsWithin(s)| == Choose2(|s|)
    decreases |s|
  {
    if s == {} {
      assert PairsWithin(s) == {};
    } else {
      var m := Largest(s);
      var rest := s - {m};
      PairCount(rest);
      LastApart(s, m);
      Choose2Step(|rest|);
    }
  }

  lemma SplitCount<T>(all: set<T>, some: set<T>)
    ensures |all - some| == |all| - |some * all|
  {
    assert all == (all - some) + (some * all);
  }

  lemma MeasurableCount(a: Assembly)
    requires Valid(a)
    ensures |Measurable(a)| == a.count - |a.meshes| && |a.meshes| <= a.count
  {
    SplitCount(Instances(a.count), a.meshes);
    assert a.meshes * Instances(a.count) == a.meshes;
  }

  lemma FormulaMeans(n: nat, k: nat, reported: nat, clean: nat)
    requires n >= 2 && k <= n && Choose2(n - k) == reported + clean && clean <= Choose2(n)
    ensures Choose2(n) > 0
    ensures InterferenceFraction(n, reported, k) == clean as real / Choose2(n) as real
  {
    Choose2Step(n - 1);
    ShareInUnit(clean, Choose2(n));
    assert Choose2(0) == 0;
  }

  /** Every measurable pair is reported or clean. */
  lemma ReportedAndClean(a: Assembly)
    requires Valid(a)
    ensures |a.meshes| <= a.count && Choose2(a.count - |a.meshes|) == |Reported(a)| + |CleanPairs(a)|
  {
    MeasurableCount(a);
    PairCount(Measurable(a));
    SplitCount(PairsWithin(Measurable(a)), a.overlaps);
  }

  lemma CleanCount(a: Assembly)
    ensures |CleanPairs(a)| <= Choose2(a.count) == |PairsWithin(Instances(a.count))|
  {
    PairCount(Instances(a.count));
    CleanAreInstances(a);
  }

  lemma CleanAreInstances(a: Assembly)
    ensures CleanPairs(a) <= PairsWithin(Instances(a.count))
    ensures |CleanPairs(a)| <= |PairsWithin(Instances(a.count))|
  {
    SubsetSmaller(CleanPairs(a), PairsWithin(Instances(a.count)));
  }

  /** The score is the number of pairs that are both measurable and clear of each other, over all
      pairs; an assembly without a pair scores zero. */
  lemma ScoreCountsCleanPairs(a: Assembly)
    requires Valid(a)
    ensures a.count < 2 ==> Score(a) == 0.0
    ensures a.count >= 2 ==> |PairsWithin(Instances(a.count))| > 0
    ensures a.count >= 2 ==> Score(a) == |CleanPairs(a)| as real / |PairsWithin(Instances(a.count))| as real
  {
    ReportedAndClean(a);
    CleanCount(a);
    if a.count >= 2 {
      FormulaMeans(a.count, |a.meshes|, |Reported(a)|, |CleanPairs(a)|);
    } else {
      assert Choose2(a.count) == 0;
    }
  }

  /** Handing in one more instance as a mesh, which hides all its overlaps, never raises the score. */
  lemma HidingAnInstanceNeverPays(a: Assembly, i: nat)
    requires Valid(a) && i < a.count
    ensures Score(a.(meshes := a.meshes + {i})) <= Score(a)
  {
    var b := a.(meshes := a.meshes + {i});
    ScoreCountsCleanPairs(a);
    ScoreCountsCleanPairs(b);
    assert CleanPairs(b) <= CleanPairs(a);
    SubsetSmaller(CleanPairs(b), CleanPairs(a));
    if a.count >= 2 {
      QuotientMonotone(|CleanPairs(b)| as real, |CleanPairs(a)| as real, |PairsWithin(Instances(a.count))| as real);
    }
  }

  lemma SameSizeSubset<T>(a: set<T>, b: set<T>)
    requires a <= b && |a| == |b|
    ensures a == b
  {
    assert b == a + (b - a);
  }

  /** Full marks mean that every instance was measured and nothing overlaps. */
  lemma FullMarks(a: Assembly)
    requires Valid(a) && a.count >= 2
    ensures Score(a) == 1.0 <==> a.meshes == {} && a.overlaps == {}
  {
    var all := PairsWithin(Instances(a.count));
    ScoreCountsCleanPairs(a);
    WholeShare(|CleanPairs(a)|, |all|);
    assert CleanPairs(a) <= all;
    if Score(a) == 1.0 {
      SameSizeSubset(CleanPairs(a), all);
    }
    AllMeasuredIff(a);
  }

  lemma AllMeasuredIff(a: Assembly)
    requires Valid(a) && a.count >= 2
    ensures CleanPairs(a) == PairsWithin(Instances(a.count)) <==> a.meshes == {} && a.overlaps == {}
  {
    var all := PairsWithin(Instances(a.count));
    if CleanPairs(a) == all {
      forall i | i in Instances(a.count)
        ensures i in Measurable(a)
      {
        var j := if i == 0 then 1 else 0;
        var p := if i < j then (i, j) else (j, i);
        assert p in all;
        assert p in CleanPairs(a);
      }
      assert forall p :: p in all ==> p !in a.overlaps;
      assert a.overlaps == {};
    }
  }
}
