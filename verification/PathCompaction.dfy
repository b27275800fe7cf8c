/** Douglas-Peucker path compaction: the explicit-stack loop of `bench/author.py`, proved
    against the recursive definition it replaces.

    Nothing here depends on how distance is computed, so everything is stated for any metric; the
    loop itself runs on the program's own. */
module PathCompaction {
  import opened ChordDistance

  /** How far vertex `i` sits off the chord of the interval (`lo`, `hi`). */
  function Off(points: seq<Point>, metric: Metric, lo: nat, hi: nat, i: nat): real
    requires lo < |points| && hi < |points| && i < |points|
  {
    metric.off(points[lo], points[hi], points[i])
  }

  /** `m` is the first of the farthest vertices strictly between `lo` and `end`, measured
      against the chord (`lo`, `hi`). */
  ghost predicate IsFirstFarthest(points: seq<Point>, metric: Metric, lo: nat, hi: nat, end: nat, m: nat)
    requires lo < end <= hi < |points|
  {
    && lo < m < end
    && (forall i {:trigger Off(points, metric, lo, hi, i)} :: lo < i < end ==>
         Off(points, metric, lo, hi, i) <= Off(points, metric, lo, hi, m))
    && (forall i {:trigger Off(points, metric, lo, hi, i)} :: lo < i < m ==>
         Off(points, metric, lo, hi, i) < Off(points, metric, lo, hi, m))
  }

  ghost function Farthest(points: seq<Point>, metric: Metric, lo: nat, hi: nat, end: nat): (m: nat)
    requires lo + 1 < end <= hi < |points|
    ensures IsFirstFarthest(points, metric, lo, hi, end, m)
  {
    if end == lo + 2 then lo + 1
    else
      var m := Farthest(points, metric, lo, hi, end - 1);
      if Off(points, metric, lo, hi, end - 1) > Off(points, metric, lo, hi, m) then end - 1 else m
  }

  /** Strictly increasing, and strictly between `lo` and `hi`. */
  ghost predicate Between(s: seq<nat>, lo: nat, hi: nat) {
    && (forall k :: 0 <= k < |s| ==> lo < s[k] < hi)
    && (forall j, k :: 0 <= j < k < |s| ==> s[j] < s[k])
  }

  /** The recursive definition: the interior vertices kept between `lo` and `hi`. */
  ghost function Split(points: seq<Point>, metric: Metric, lo: nat, hi: nat): (kept: seq<nat>)
    requires lo <= hi < |points|
    ensures Between(kept, lo, hi)
    decreases hi - lo
  {
    if hi - lo < 2 then []
    else
      var m := Farthest(points, metric, lo, hi, hi);
      if metric.over(Off(points, metric, lo, hi, m)) then
        Split(points, metric, lo, m) + [m] + Split(points, metric, m, hi)
      else []
  }

  /** The two ends and everything kept between them. */
  ghost function Whole(points: seq<Point>, metric: Metric, lo: nat, hi: nat): (s: seq<nat>)
    requires lo < hi < |points|
    ensures |s| >= 2 && s[0] == lo && s[|s| - 1] == hi
    ensures forall j, k :: 0 <= j < k < |s| ==> s[j] < s[k]
    ensures forall k :: 0 <= k < |s| ==> lo <= s[k] <= hi
  {
    [lo] + Split(points, metric, lo, hi) + [hi]
  }

  /** What compaction returns for a whole path. */
  ghost function Kept(points: seq<Point>, metric: Metric): (s: seq<nat>)
    requires |points| >= 1
    ensures forall j, k :: 0 <= j < k < |s| ==> s[j] < s[k]
    ensures forall k :: 0 <= k < |s| ==> s[k] < |points|
    ensures |s| >= 1 && s[0] == 0 && s[|s| - 1] == |points| - 1
  {
    if |points| == 1 then [0] else Whole(points, metric, 0, |points| - 1)
  }

  // ------------------------------------------------------------ the error bound

  /** No vertex between the neighbours `s[k]` and `s[k + 1]` is too far off their chord. */
  ghost predicate GapWithinBound(points: seq<Point>, metric: Metric, s: seq<nat>, k: nat)
    requires k + 1 < |s| && s[k] < |points| && s[k + 1] < |points|
  {
    forall i {:trigger Off(points, metric, s[k], s[k + 1], i)} ::
      s[k] < i < s[k + 1] ==> !metric.over(Off(points, metric, s[k], s[k + 1], i))
  }

  ghost predicate WithinBound(points: seq<Point>, metric: Metric, s: seq<nat>)
    requires forall k :: 0 <= k < |s| ==> s[k] < |points|
  {
    forall k :: 0 <= k < |s| - 1 ==> GapWithinBound(points, metric, s, k)
  }

  lemma SameGap(points: seq<Point>, metric: Metric, s: seq<nat>, k: nat, t: seq<nat>, j: nat)
    requires k + 1 < |s| && s[k] < |points| && s[k + 1] < |points| && GapWithinBound(points, metric, s, k)
    requires j + 1 < |t| && t[j] == s[k] && t[j + 1] == s[k + 1]
    ensures GapWithinBound(points, metric, t, j)
  {
  }

  lemma GlueWithinBound(points: seq<Point>, metric: Metric, left: seq<nat>, right: seq<nat>)
    requires left != [] && right != [] && left[|left| - 1] == right[0]
    requires forall k :: 0 <= k < |left| ==> left[k] < |points|
    requires forall k :: 0 <= k < |right| ==> right[k] < |points|
    requires WithinBound(points, metric, left) && WithinBound(points, metric, right)
    ensures WithinBound(points, metric, left + right[1..])
  {
    var s, c := left + right[1..], |left| - 1;
    forall k | 0 <= k < |s| - 1
      ensures GapWithinBound(points, metric, s, k)
    {
      if k < c {
        SameGap(points, metric, left, k, s, k);
      } else {
        SameGap(points, metric, right, k - c, s, k);
      }
    }
  }

  lemma {:induction false} SplitWithinBound(points: seq<Point>, metric: Metric, lo: nat, hi: nat)
    requires lo < hi < |points| && ValidMetric(metric)
    ensures WithinBound(points, metric, Whole(points, metric, lo, hi))
    decreases hi - lo
  {
    if Split(points, metric, lo, hi) != [] {
      var m := Farthest(points, metric, lo, hi, hi);
      SplitWithinBound(points, metric, lo, m);
      SplitWithinBound(points, metric, m, hi);
      var left, right := Whole(points, metric, lo, m), Whole(points, metric, m, hi);
      GlueWithinBound(points, metric, left, right);
      assert left + right[1..] == Whole(points, metric, lo, hi);
    }
  }

  /** No dropped vertex is too far off the chord between its surviving neighbours. */
  lemma DroppedWithinBound(points: seq<Point>, metric: Metric)
    requires |points| >= 1 && ValidMetric(metric)
    ensures WithinBound(points, metric, Kept(points, metric))
  {
    if |points| > 1 {
      SplitWithinBound(points, metric, 0, |points| - 1);
    }
  }

  /** Every vertex dropped between two neighbours of `s` is within epsilon of their chord. */
  ghost predicate DroppedNear(points: seq<Point>, epsilon: real, s: seq<nat>) {
    forall k, i :: 0 <= k < |s| - 1 && s[k] < i < s[k + 1] < |points| ==>
      Near(points[s[k]], points[s[k + 1]], points[i], epsilon)
  }

  /** Every vertex of the path is within epsilon of the chord of its ends. */
  ghost predicate NearlyStraight(points: seq<Point>, epsilon: real)
    requires points != []
  {
    forall i :: 0 < i < |points| - 1 ==> Near(points[0], points[|points| - 1], points[i], epsilon)
  }

  /** In plane geometry, and without the distance the code computes: every dropped vertex is within
      epsilon of the chord between its surviving neighbours. */
  lemma CodeWithinEpsilon(points: seq<Point>, epsilon: real)
    requires |points| >= 1 && epsilon >= 0.0
    ensures DroppedNear(points, epsilon, Kept(points, CodeMetric(epsilon)))
  {
    var s, metric := Kept(points, CodeMetric(epsilon)), CodeMetric(epsilon);
    CodeMetricValid(epsilon);
    DroppedWithinBound(points, metric);
    forall k, i | 0 <= k < |s| - 1 && s[k] < i < s[k + 1] < |points|
      ensures Near(points[s[k]], points[s[k + 1]], points[i], epsilon)
    {
      assert GapWithinBound(points, metric, s, k);
      assert !metric.over(Off(points, metric, s[k], s[k + 1], i));
      TooFarIff(points[s[k]], points[s[k + 1]], points[i], epsilon);
    }
  }

  /** A path compacts to its two ends exactly when every vertex is within epsilon of their chord. */
  lemma StraightPathsOnly(points: seq<Point>, epsilon: real)
    requires |points| >= 2 && epsilon >= 0.0
    ensures Kept(points, CodeMetric(epsilon)) == [0, |points| - 1] <==> NearlyStraight(points, epsilon)
  {
    var metric, n := CodeMetric(epsilon), |points|;
    if Kept(points, metric) == [0, n - 1] {
      CodeWithinEpsilon(points, epsilon);
      assert DroppedNear(points, epsilon, [0, n - 1]);
    } else {
      assert Split(points, metric, 0, n - 1) != [];
      var m := Farthest(points, metric, 0, n - 1, n - 1);
      assert metric.over(Off(points, metric, 0, n - 1, m));
      TooFarIff(points[0], points[n - 1], points[m], epsilon);
    }
  }

  lemma {:induction false} SplitKeepsAll(points: seq<Point>, metric: Metric, lo: nat, hi: nat)
    requires lo < hi < |points| && forall d :: metric.over(d)
    ensures Split(points, metric, lo, hi) == Interior(lo, hi)
    decreases hi - lo
  {
    if hi - lo >= 2 {
      var m := Farthest(points, metric, lo, hi, hi);
      SplitKeepsAll(points, metric, lo, m);
      SplitKeepsAll(points, metric, m, hi);
      InteriorJoin(lo, m, hi);
    }
  }

  /** A negative epsilon keeps every vertex. */
  lemma NegativeKeepsAll(points: seq<Point>, epsilon: real)
    requires |points| >= 1 && epsilon < 0.0
    ensures Kept(points, CodeMetric(epsilon)) == AllIndices(|points|)
  {
    if |points| >= 2 {
      SplitKeepsAll(points, CodeMetric(epsilon), 0, |points| - 1);
    }
    AllKept(points, CodeMetric(epsilon));
  }

  // ------------------------------------------------------------ idempotence

  /** The elements at the indices `keep`: the sub-path of those vertices. */
  function Select<T>(s: seq<T>, keep: seq<nat>): (r: seq<T>)
    requires forall k :: 0 <= k < |keep| ==> keep[k] < |s|
    ensures |r| == |keep| && forall k :: 0 <= k < |keep| ==> r[k] == s[keep[k]]
  {
    seq(|keep|, k requires 0 <= k < |keep| => s[keep[k]])
  }

  /** The indices strictly between `a` and `b`. */
  ghost function Interior(a: nat, b: nat): (s: seq<nat>)
    requires a < b
    ensures |s| == b - a - 1 && forall k :: 0 <= k < |s| ==> s[k] == a + 1 + k
  {
    seq(b - a - 1, k => a + 1 + k)
  }

  /** The stretch of `sub` from `a` on is the vertices of `points` at the indices `s`. */
  ghost predicate Holds(points: seq<Point>, s: seq<nat>, sub: seq<Point>, a: nat) {
    a + |s| <= |sub| && forall k :: 0 <= k < |s| ==> s[k] < |points| && sub[a + k] == points[s[k]]
  }

  /** Splitting an interval of survivors keeps all of them: the first farthest vertex of the
      original interval is again the first farthest among its survivors. */
  lemma {:induction false} SurvivorsSurvive(points: seq<Point>, metric: Metric, lo: nat, hi: nat,
                                            sub: seq<Point>, a: nat, b: nat)
    requires lo < hi < |points| && a < b < |sub|
    requires b - a + 1 == |Whole(points, metric, lo, hi)|
    requires Holds(points, Whole(points, metric, lo, hi), sub, a)
    ensures Split(sub, metric, a, b) == Interior(a, b)
    decreases hi - lo
  {
    if Split(points, metric, lo, hi) != [] {
      var m := Farthest(points, metric, lo, hi, hi);
      var left, right := Whole(points, metric, lo, m), Whole(points, metric, m, hi);
      var s := left + right[1..];
      assert s == Whole(points, metric, lo, hi);
      var c := a + |left| - 1;
      SameFirstFarthest(points, metric, lo, hi, m, s, |left| - 1, sub, a, b);
      HoldsParts(points, s, left, right, sub, a);
      SurvivorsSurvive(points, metric, lo, m, sub, a, c);
      SurvivorsSurvive(points, metric, m, hi, sub, c, b);
      SplitAt(sub, metric, a, b, c);
      InteriorJoin(a, c, b);
    }
  }

  /** The recursive definition, unfolded at a known first farthest vertex. */
  lemma SplitAt(points: seq<Point>, metric: Metric, lo: nat, hi: nat, m: nat)
    requires lo < m < hi < |points| && IsFirstFarthest(points, metric, lo, hi, hi, m)
    requires metric.over(Off(points, metric, lo, hi, m))
    ensures Split(points, metric, lo, hi) == Split(points, metric, lo, m) + [m] + Split(points, metric, m, hi)
  {
    var n := Farthest(points, metric, lo, hi, hi);
    assert Off(points, metric, lo, hi, m) == Off(points, metric, lo, hi, n);
    assert n == m;
  }

  lemma InteriorJoin(lo: nat, m: nat, hi: nat)
    requires lo < m < hi
    ensures Interior(lo, m) + [m] + Interior(m, hi) == Interior(lo, hi)
  {
  }

  lemma HoldsParts(points: seq<Point>, s: seq<nat>, left: seq<nat>, right: seq<nat>, sub: seq<Point>, a: nat)
    requires left != [] && right != [] && left[|left| - 1] == right[0]
    requires s == left + right[1..] && Holds(points, s, sub, a)
    ensures Holds(points, left, sub, a) && Holds(points, right, sub, a + |left| - 1)
  {
    var j := |left| - 1;
    forall k | 0 <= k < |left|
      ensures left[k] < |points| && sub[a + k] == points[left[k]]
    {
      assert s[k] == left[k];
    }
    forall k | 0 <= k < |right|
      ensures right[k] < |points| && sub[a + j + k] == points[right[k]]
    {
      assert s[j + k] == right[k];
      assert sub[a + (j + k)] == points[s[j + k]];
    }
  }

  lemma SameFirstFarthest(points: seq<Point>, metric: Metric, lo: nat, hi: nat, m: nat, s: seq<nat>, j: nat,
                          sub: seq<Point>, a: nat, b: nat)
    requires lo < hi < |points| && IsFirstFarthest(points, metric, lo, hi, hi, m)
    requires |s| >= 2 && s[0] == lo && s[|s| - 1] == hi && 0 < j < |s| - 1 && s[j] == m
    requires forall i, k :: 0 <= i < k < |s| ==> s[i] < s[k]
    requires b - a + 1 == |s| && Holds(points, s, sub, a)
    ensures IsFirstFarthest(sub, metric, a, b, b, a + j)
    ensures Off(sub, metric, a, b, a + j) == Off(points, metric, lo, hi, m)
  {
    assert sub[a + 0] == points[lo] && sub[a + (|s| - 1)] == points[hi];
    forall i | a < i < b
      ensures Off(sub, metric, a, b, i) == Off(points, metric, lo, hi, s[i - a])
      ensures lo < s[i - a] < hi
      ensures i < a + j ==> s[i - a] < m
    {
      assert sub[a + (i - a)] == points[s[i - a]];
    }
  }

  /** Every index of a path of `n` vertices. */
  ghost function AllIndices(n: nat): (s: seq<nat>)
    ensures |s| == n && forall k :: 0 <= k < n ==> s[k] == k
  {
    seq(n, k => k)
  }

  lemma InteriorAndEnds(n: nat)
    requires n >= 2
    ensures [0] + Interior(0, n - 1) + [n - 1] == AllIndices(n)
  {
  }

  lemma WholeIdempotent(points: seq<Point>, metric: Metric, s: seq<nat>, sub: seq<Point>)
    requires |points| >= 2 && s == Whole(points, metric, 0, |points| - 1) && sub == Select(points, s)
    ensures Split(sub, metric, 0, |s| - 1) == Interior(0, |s| - 1)
  {
    SurvivorsSurvive(points, metric, 0, |points| - 1, sub, 0, |s| - 1);
  }

  lemma AllKept(sub: seq<Point>, metric: Metric)
    requires |sub| >= 1
    requires |sub| >= 2 ==> Split(sub, metric, 0, |sub| - 1) == Interior(0, |sub| - 1)
    ensures Kept(sub, metric) == AllIndices(|sub|)
  {
    if |sub| == 1 {
      assert AllIndices(1) == [0];
    } else {
      InteriorAndEnds(|sub|);
    }
  }

  /** Compacting the survivors drops nothing. */
  lemma CompactionIdempotent(points: seq<Point>, metric: Metric)
    requires |points| >= 1
    ensures var s := Kept(points, metric);
            Kept(Select(points, s), metric) == AllIndices(|s|)
  {
    var s := Kept(points, metric);
    var sub := Select(points, s);
    if |points| >= 2 {
      WholeIdempotent(points, metric, s, sub);
    }
    AllKept(sub, metric);
  }

  // ------------------------------------------------------------ the worklist, in any order

  /** The two things the loop updates: what is kept, and the intervals still to look at. */
  datatype Work = Work(keep: set<nat>, todo: seq<(nat, nat)>)

  ghost predicate ValidWork(points: seq<Point>, w: Work) {
    forall k :: 0 <= k < |w.todo| ==> w.todo[k].0 <= w.todo[k].1 < |points|
  }

  /** One round of the loop, taking the interval at position `k`. */
  ghost function Process(points: seq<Point>, metric: Metric, w: Work, k: nat): (next: Work)
    requires ValidWork(points, w) && k < |w.todo|
    ensures ValidWork(points, next)
  {
    var (lo, hi) := w.todo[k];
    var rest := w.todo[..k] + w.todo[k + 1..];
    if hi - lo < 2 then Work(w.keep, rest)
    else
      var m := Farthest(points, metric, lo, hi, hi);
      if metric.over(Off(points, metric, lo, hi, m)) then Work(w.keep + {m}, rest + [(lo, m), (m, hi)])
      else Work(w.keep, rest)
  }

  /** Some interval of the list will still keep `i`. */
  ghost predicate Owed(points: seq<Point>, metric: Metric, todo: seq<(nat, nat)>, i: nat)
    requires forall k :: 0 <= k < |todo| ==> todo[k].0 <= todo[k].1 < |points|
  {
    todo != [] && (i in Split(points, metric, todo[0].0, todo[0].1) || Owed(points, metric, todo[1..], i))
  }

  ghost predicate WillKeep(points: seq<Point>, metric: Metric, w: Work, i: nat)
    requires ValidWork(points, w)
  {
    i in w.keep || Owed(points, metric, w.todo, i)
  }

  lemma {:induction false} OwedAppend(points: seq<Point>, metric: Metric, a: seq<(nat, nat)>, b: seq<(nat, nat)>,
                                      i: nat)
    requires forall k :: 0 <= k < |a| ==> a[k].0 <= a[k].1 < |points|
    requires forall k :: 0 <= k < |b| ==> b[k].0 <= b[k].1 < |points|
    ensures Owed(points, metric, a + b, i) <==> Owed(points, metric, a, i) || Owed(points, metric, b, i)
  {
    if a == [] {
      assert a + b == b;
    } else {
      OwedAppend(points, metric, a[1..], b, i);
      assert (a + b)[1..] == a[1..] + b;
    }
  }

  lemma OwedOne(points: seq<Point>, metric: Metric, lo: nat, hi: nat, i: nat)
    requires lo <= hi < |points|
    ensures Owed(points, metric, [(lo, hi)], i) <==> i in Split(points, metric, lo, hi)
  {
  }

  lemma OwedWithout(points: seq<Point>, metric: Metric, todo: seq<(nat, nat)>, k: nat, i: nat)
    requires k < |todo| && forall j :: 0 <= j < |todo| ==> todo[j].0 <= todo[j].1 < |points|
    ensures Owed(points, metric, todo, i)
      <==> Owed(points, metric, todo[..k] + todo[k + 1..], i) || i in Split(points, metric, todo[k].0, todo[k].1)
  {
    var before, one, after := todo[..k], [(todo[k].0, todo[k].1)], todo[k + 1..];
    assert todo == before + (one + after);
    OwedAppend(points, metric, before, one + after, i);
    OwedAppend(points, metric, one, after, i);
    OwedAppend(points, metric, before, after, i);
    OwedOne(points, metric, todo[k].0, todo[k].1, i);
  }

  lemma OwedTwo(points: seq<Point>, metric: Metric, rest: seq<(nat, nat)>, lo: nat, m: nat, hi: nat, i: nat)
    requires lo <= m <= hi < |points| && forall j :: 0 <= j < |rest| ==> rest[j].0 <= rest[j].1 < |points|
    ensures Owed(points, metric, rest + [(lo, m), (m, hi)], i) <==>
      (Owed(points, metric, rest, i) || i in Split(points, metric, lo, m) || i in Split(points, metric, m, hi))
  {
    OwedAppend(points, metric, rest, [(lo, m), (m, hi)], i);
    assert [(lo, m), (m, hi)] == [(lo, m)] + [(m, hi)];
    OwedAppend(points, metric, [(lo, m)], [(m, hi)], i);
    OwedOne(points, metric, lo, m, i);
    OwedOne(points, metric, m, hi, i);
  }

  /** A round changes neither what is kept nor what will be, whichever interval it takes. */
  lemma ProcessKeepsOutcome(points: seq<Point>, metric: Metric, w: Work, k: nat, i: nat)
    requires ValidWork(points, w) && k < |w.todo|
    ensures WillKeep(points, metric, Process(points, metric, w, k), i) <==> WillKeep(points, metric, w, i)
  {
    var (lo, hi) := w.todo[k];
    OwedWithout(points, metric, w.todo, k, i);
    if Split(points, metric, lo, hi) != [] {
      OwedTwo(points, metric, w.todo[..k] + w.todo[k + 1..], lo, Farthest(points, metric, lo, hi, hi), hi, i);
    }
  }

  ghost predicate Ordered(todo: seq<(nat, nat)>) {
    forall k :: 0 <= k < |todo| ==> todo[k].0 <= todo[k].1
  }

  /** Splitting (0, d) costs at most 2d - 1 rounds. */
  ghost function Cost(todo: seq<(nat, nat)>): (c: nat)
    requires Ordered(todo)
    ensures c >= |todo|
  {
    if todo == [] then 0
    else
      var (lo, hi) := todo[0];
      (if hi == lo then 1 else 2 * (hi - lo) - 1) + Cost(todo[1..])
  }

  lemma {:induction false} CostAppend(a: seq<(nat, nat)>, b: seq<(nat, nat)>)
    requires Ordered(a) && Ordered(b)
    ensures Ordered(a + b) && Cost(a + b) == Cost(a) + Cost(b)
  {
    if a == [] {
      assert a + b == b;
    } else {
      CostAppend(a[1..], b);
      assert (a + b)[1..] == a[1..] + b;
    }
  }

  lemma CostOfOne(lo: nat, hi: nat)
    requires lo <= hi
    ensures Cost([(lo, hi)]) == if hi == lo then 1 else 2 * (hi - lo) - 1
  {
    assert [(lo, hi)][1..] == [];
  }

  lemma CostOfTwo(lo: nat, m: nat, hi: nat)
    requires lo < m < hi
    ensures Cost([(lo, m), (m, hi)]) == Cost([(lo, hi)]) - 1
  {
    assert [(lo, m), (m, hi)][1..] == [(m, hi)];
    CostOfOne(m, hi);
    CostOfOne(lo, hi);
  }

  lemma CostOfMiddle(before: seq<(nat, nat)>, one: (nat, nat), after: seq<(nat, nat)>)
    requires Ordered(before) && Ordered([one]) && Ordered(after)
    ensures Ordered(before + [one] + after) && Ordered(before + after)
    ensures Cost(before + [one] + after) == Cost(before + after) + Cost([one])
  {
    CostAppend(before, [one]);
    CostAppend(before + [one], after);
    CostAppend(before, after);
  }

  /** Every round makes the measure smaller. */
  lemma ProcessDecreases(points: seq<Point>, metric: Metric, w: Work, k: nat)
    requires ValidWork(points, w) && k < |w.todo|
    ensures Cost(Process(points, metric, w, k).todo) < Cost(w.todo)
  {
    var next := Process(points, metric, w, k);
    var (lo, hi) := w.todo[k];
    var before, after := w.todo[..k], w.todo[k + 1..];
    var rest := before + after;
    assert w.todo == before + [(lo, hi)] + after;
    CostOfMiddle(before, (lo, hi), after);
    CostOfOne(lo, hi);
    if next.todo != rest {
      var m := Farthest(points, metric, lo, hi, hi);
      CostAppend(rest, [(lo, m), (m, hi)]);
      CostOfTwo(lo, m, hi);
    }
  }

  /** A pick beyond the end of the list takes the last interval. */
  ghost function Choice(pick: nat, n: nat): (k: nat)
    requires n > 0
    ensures k < n
  {
    if pick < n then pick else n - 1
  }

  /** Taking the intervals in the order `picks` says, until the list of picks ends. */
  ghost function Run(points: seq<Point>, metric: Metric, w: Work, picks: seq<nat>): (end: Work)
    requires ValidWork(points, w)
    ensures ValidWork(points, end)
    decreases |picks|
  {
    if picks == [] || w.todo == [] then w
    else
      Run(points, metric, Process(points, metric, w, Choice(picks[0], |w.todo|)), picks[1..])
  }

  /** However the intervals are popped, a run that empties the list keeps exactly what the
      recursive definition keeps, and every long enough run empties it. */
  lemma {:induction false} AnyPopOrder(points: seq<Point>, metric: Metric, w: Work, picks: seq<nat>, i: nat)
    requires ValidWork(points, w)
    ensures var end := Run(points, metric, w, picks);
            && (WillKeep(points, metric, end, i) <==> WillKeep(points, metric, w, i))
            && (end.todo == [] ==> (i in end.keep <==> WillKeep(points, metric, w, i)))
            && (|picks| >= Cost(w.todo) ==> end.todo == [])
    decreases |picks|
  {
    if picks != [] && w.todo != [] {
      var k := Choice(picks[0], |w.todo|);
      ProcessKeepsOutcome(points, metric, w, k, i);
      ProcessDecreases(points, metric, w, k);
      AnyPopOrder(points, metric, Process(points, metric, w, k), picks[1..], i);
    }
  }

  /** The start of every run: both ends kept, the whole path to look at. */
  ghost function Start(n: nat): Work
    requires n >= 1
  {
    Work({0, n - 1}, [(0, n - 1)])
  }

  lemma StartWillKeep(points: seq<Point>, metric: Metric, i: nat)
    requires |points| >= 1
    ensures WillKeep(points, metric, Start(|points|), i) <==> i in Kept(points, metric)
  {
    OwedOne(points, metric, 0, |points| - 1, i);
    if |points| > 1 {
      assert Kept(points, metric) == [0] + Split(points, metric, 0, |points| - 1) + [|points| - 1];
    }
  }

  /** The whole compaction, for every order in which intervals may be taken. */
  lemma AnyOrderKeepsKept(points: seq<Point>, metric: Metric, picks: seq<nat>)
    requires |points| >= 1 && |picks| >= 2 * |points|
    ensures Run(points, metric, Start(|points|), picks).todo == []
    ensures forall i: nat :: i in Run(points, metric, Start(|points|), picks).keep <==> i in Kept(points, metric)
  {
    var n := |points|;
    assert Cost([(0, n - 1)]) <= 2 * n by {
      assert [(0, n - 1)][1..] == [];
    }
    AnyPopOrder(points, metric, Start(n), picks, 0);
    forall i: nat
      ensures i in Run(points, metric, Start(n), picks).keep <==> i in Kept(points, metric)
    {
      AnyPopOrder(points, metric, Start(n), picks, i);
      StartWillKeep(points, metric, i);
    }
  }

  // ------------------------------------------------------------ the loop itself

  lemma {:induction false} IncreasingSeqsEqual(a: seq<nat>, b: seq<nat>)
    requires forall j, k :: 0 <= j < k < |a| ==> a[j] < a[k]
    requires forall j, k :: 0 <= j < k < |b| ==> b[j] < b[k]
    requires forall i: nat :: i in a <==> i in b
    ensures a == b
  {
    assert b != [] ==> b[0] in a;
    if a != [] {
      var (la, lb) := (|a| - 1, |b| - 1);
      assert a[la] in b && b != [];
      assert b[lb] in a;
      assert a[la] == b[lb];
      var (a', b') := (a[..la], b[..lb]);
      forall i: nat
        ensures i in a' <==> i in b'
      {
        if i in a' {
          assert i in b && i != b[lb];
        }
        if i in b' {
          assert i in a && i != a[la];
        }
      }
      IncreasingSeqsEqual(a', b');
      assert a == a' + [a[la]] && b == b' + [b[lb]];
    }
  }

  /** The inner scan: the first farthest vertex of one interval. */
  method Scan(points: seq<Point>, metric: Metric, lo: nat, hi: nat) returns (worst: real, index: nat)
    requires lo + 1 < hi < |points| && ValidMetric(metric)
    ensures index == Farthest(points, metric, lo, hi, hi) && worst == Off(points, metric, lo, hi, index)
  {
    worst, index := -1.0, lo;
    for i := lo + 1 to hi
      invariant i == lo + 1 ==> worst == -1.0
      invariant i > lo + 1 ==>
        index == Farthest(points, metric, lo, hi, i) && worst == Off(points, metric, lo, hi, index)
    {
      var dist := metric.off(points[lo], points[hi], points[i]);
      if dist > worst {
        worst, index := dist, i;
      }
    }
  }

  ghost predicate SameOutcome(points: seq<Point>, metric: Metric, v: Work, w: Work)
    requires ValidWork(points, v) && ValidWork(points, w)
  {
    forall i: nat :: WillKeep(points, metric, v, i) <==> WillKeep(points, metric, w, i)
  }

  /** What the loop body does: it takes the last interval. */
  ghost function PopLast(points: seq<Point>, metric: Metric, w: Work): (next: Work)
    requires ValidWork(points, w) && w.todo != []
    ensures next == Process(points, metric, w, |w.todo| - 1)
  {
    var (lo, hi) := w.todo[|w.todo| - 1];
    var rest := w.todo[..|w.todo| - 1];
    assert rest + w.todo[|w.todo|..] == rest;
    if hi - lo < 2 then Work(w.keep, rest)
    else
      var m := Farthest(points, metric, lo, hi, hi);
      if metric.over(Off(points, metric, lo, hi, m)) then Work(w.keep + {m}, rest + [(lo, m)] + [(m, hi)])
      else Work(w.keep, rest)
  }

  lemma PopKeepsOutcome(points: seq<Point>, metric: Metric, w: Work, start: Work)
    requires ValidWork(points, w) && ValidWork(points, start) && w.todo != []
    requires SameOutcome(points, metric, w, start)
    ensures var next := PopLast(points, metric, w);
            SameOutcome(points, metric, next, start) && Cost(next.todo) < Cost(w.todo)
  {
    var k := |w.todo| - 1;
    ProcessDecreases(points, metric, w, k);
    forall i: nat
      ensures WillKeep(points, metric, Process(points, metric, w, k), i) <==> WillKeep(points, metric, start, i)
    {
      ProcessKeepsOutcome(points, metric, w, k, i);
    }
  }

  lemma FinishedKeepsKept(points: seq<Point>, metric: Metric, w: Work)
    requires |points| >= 1
    requires ValidWork(points, w) && w.todo == [] && SameOutcome(points, metric, w, Start(|points|))
    ensures forall i: nat :: i in w.keep <==> i in Kept(points, metric)
  {
    forall i: nat
      ensures i in w.keep <==> i in Kept(points, metric)
    {
      StartWillKeep(points, metric, i);
      assert WillKeep(points, metric, w, i) <==> i in w.keep;
    }
  }

  /** The last line of the loop's method: the flagged indices, in order. */
  method Flagged(keep: array<bool>) returns (kept: seq<nat>)
    ensures forall j, k :: 0 <= j < k < |kept| ==> kept[j] < kept[k]
    ensures forall i: nat :: i in kept <==> i < keep.Length && keep[i]
  {
    kept := [];
    for i := 0 to keep.Length
      invariant forall k :: 0 <= k < |kept| ==> kept[k] < i
      invariant forall j, k :: 0 <= j < k < |kept| ==> kept[j] < kept[k]
      invariant forall j: nat :: j in kept <==> j < i && keep[j]
    {
      if keep[i] {
        kept := kept + [i];
      }
    }
  }

  /** The indices of the vertices Douglas-Peucker keeps, found with a stack and a flag array. */
  method CompactWith(points: seq<Point>, metric: Metric) returns (kept: seq<nat>)
    requires |points| >= 1 && ValidMetric(metric)
    ensures kept == Kept(points, metric)
  {
    var n := |points|;
    var keep := new bool[n](_ => false);
    keep[0], keep[n - 1] := true, true;
    var stack := [(0, n - 1)];
    ghost var w := Start(n);
    while stack != []
      invariant w.todo == stack && ValidWork(points, w)
      invariant forall i: nat :: i in w.keep <==> i < n && keep[i]
      invariant SameOutcome(points, metric, w, Start(n))
      decreases Cost(stack)
    {
      PopKeepsOutcome(points, metric, w, Start(n));
      w := PopLast(points, metric, w);
      var (lo, hi) := stack[|stack| - 1];
      stack := stack[..|stack| - 1];
      if hi - lo >= 2 {
        var worst, index := Scan(points, metric, lo, hi);
        if metric.over(worst) {
          keep[index] := true;
          stack := stack + [(lo, index)];
          stack := stack + [(index, hi)];
        }
      }
    }
    kept := Flagged(keep);
    FinishedKeepsKept(points, metric, w);
    IncreasingSeqsEqual(kept, Kept(points, metric));
  }

  /** `_compact_path`: the same, with the program's own distance. */
  method CompactPath(points: seq<Point>, epsilon: real) returns (kept: seq<nat>)
    requires |points| >= 1
    ensures kept == Kept(points, CodeMetric(epsilon))
    ensures epsilon >= 0.0 ==> DroppedNear(points, epsilon, kept)
    ensures epsilon >= 0.0 && |points| >= 2 ==> (kept == [0, |points| - 1] <==> NearlyStraight(points, epsilon))
    ensures epsilon < 0.0 ==> kept == AllIndices(|points|)
  {
    CodeMetricValid(epsilon);
    kept := CompactWith(points, CodeMetric(epsilon));
    if epsilon < 0.0 {
      NegativeKeepsAll(points, epsilon);
    } else {
      CodeWithinEpsilon(points, epsilon);
      if |points| >= 2 {
        StraightPathsOnly(points, epsilon);
      }
    }
  }
}
