/** The bench report's means and the release gate: zero-folding, the verdict and its exit code. */
module ReleaseGate {
  import opened Arith
  import opened Options

  // ------------------------------------------------------------ sums over keys

  type Rows = map<string, real>

  ghost function SumOver(s: set<string>, rows: Rows): real
    requires s <= rows.Keys
    decreases |s|
  {
    if s == {} then 0.0
    else
      var x :| x in s;
      rows[x] + SumOver(s - {x}, rows)
  }

  lemma {:induction false} SumTakesOut(s: set<string>, rows: Rows, y: string)
    requires s <= rows.Keys && y in s
    ensures SumOver(s, rows) == rows[y] + SumOver(s - {y}, rows)
    decreases |s|
  {
    var x :| x in s && SumOver(s, rows) == rows[x] + SumOver(s - {x}, rows);
    if x != y {
      SumTakesOut(s - {x}, rows, y);
      SumTakesOut(s - {y}, rows, x);
      assert s - {x} - {y} == s - {y} - {x};
    }
  }

  lemma {:induction false} SumOfBoth(a: set<string>, b: set<string>, rows: Rows)
    requires a <= rows.Keys && b <= rows.Keys && a !! b
    ensures SumOver(a + b, rows) == SumOver(a, rows) + SumOver(b, rows)
    decreases |a|
  {
    if a == {} {
      assert a + b == b;
    } else {
      var x :| x in a;
      SumOfBoth(a - {x}, b, rows);
      SumTakesOut(a, rows, x);
      SumTakesOut(a + b, rows, x);
      assert a + b - {x} == (a - {x}) + b;
    }
  }

  lemma {:induction false} SumMonotone(s: set<string>, low: Rows, high: Rows)
    requires s <= low.Keys && s <= high.Keys && forall x :: x in s ==> low[x] <= high[x]
    ensures SumOver(s, low) <= SumOver(s, high)
    decreases |s|
  {
    if s != {} {
      var x :| x in s;
      SumMonotone(s - {x}, low, high);
      SumTakesOut(s, low, x);
      SumTakesOut(s, high, x);
    }
  }

  lemma SumSame(s: set<string>, a: Rows, b: Rows)
    requires s <= a.Keys && s <= b.Keys && forall x :: x in s ==> a[x] == b[x]
    ensures SumOver(s, a) == SumOver(s, b)
  {
    SumMonotone(s, a, b);
    SumMonotone(s, b, a);
  }

  function Zeros(s: set<string>): Rows {
    map x | x in s :: 0.0
  }

  lemma {:induction false} SumOfZeros(s: set<string>)
    ensures SumOver(s, Zeros(s)) == 0.0
    decreases |s|
  {
    if s != {} {
      var x :| x in s;
      SumTakesOut(s, Zeros(s), x);
      SumSame(s - {x}, Zeros(s), Zeros(s - {x}));
      SumOfZeros(s - {x});
    }
  }

  lemma SumNotNegative(s: set<string>, rows: Rows)
    requires s <= rows.Keys && forall x :: x in s ==> rows[x] >= 0.0
    ensures SumOver(s, rows) >= 0.0
  {
    SumOfZeros(s);
    SumMonotone(s, Zeros(s), rows);
  }

  ghost function MeanOver(s: set<string>, rows: Rows): real
    requires s <= rows.Keys && s != {}
  {
    SumOver(s, rows) / |s| as real
  }

  /** More keys and no larger a sum: no larger a mean. */
  lemma MeanFalls(more: set<string>, low: Rows, s: set<string>, rows: Rows)
    requires s != {} && s <= more && more <= low.Keys && s <= rows.Keys
    requires forall x :: x in s ==> low[x] <= rows[x]
    requires forall x :: x in more - s ==> low[x] == 0.0
    requires forall x :: x in s ==> rows[x] >= 0.0
    ensures more != {} && MeanOver(more, low) <= MeanOver(s, rows)
  {
    SumOfBoth(s, more - s, low);
    assert s + (more - s) == more;
    SumSame(more - s, low, Zeros(more - s));
    SumOfZeros(more - s);
    SumMonotone(s, low, rows);
    SumNotNegative(s, rows);
    SubsetSmaller(s, more);
    QuotientMonotone(SumOver(more, low), SumOver(s, rows), |more| as real);
    LargerDivisor(SumOver(s, rows), |more| as real, |s| as real);
  }

  // ------------------------------------------------------------ the means

  /** What stands before the first slash of a task id. */
  function Category(id: string): (c: string)
    ensures c <= id
  {
    if id == "" || id[0] == '/' then "" else [id[0]] + Category(id[1..])
  }

  function Categories(ids: set<string>): set<string> {
    set id | id in ids :: Category(id)
  }

  function InCategory(ids: set<string>, c: string): set<string> {
    set id | id in ids && Category(id) == c
  }

  ghost function CategoryMeans(rows: Rows): (m: Rows)
    ensures m.Keys == Categories(rows.Keys)
  {
    map c | c in Categories(rows.Keys) :: CategoryMean(rows, c)
  }

  ghost function CategoryMean(rows: Rows, c: string): real
    requires c in Categories(rows.Keys)
  {
    var id :| id in rows && Category(id) == c;
    assert id in InCategory(rows.Keys, c);
    MeanOver(InCategory(rows.Keys, c), rows)
  }

  /** The mean of the category means, never of the tasks. */
  ghost function MeanOfMeans(rows: Rows): real
    requires |rows| > 0
  {
    SomeCategory(rows);
    MeanOver(Categories(rows.Keys), CategoryMeans(rows))
  }

  lemma SomeCategory(rows: Rows)
    requires |rows| > 0
    ensures Categories(rows.Keys) != {}
  {
    var id :| id in rows;
    assert Category(id) in Categories(rows.Keys);
  }

  function SumOfSeq(s: seq<real>): real {
    if s == [] then 0.0 else SumOfSeq(s[..|s| - 1]) + s[|s| - 1]
  }

  predicate Distinct(ids: seq<string>) {
    forall i, j :: 0 <= i < j < |ids| ==> ids[i] != ids[j]
  }

  function SetOf(ids: seq<string>): (s: set<string>)
    ensures forall id :: id in s <==> id in ids
  {
    set id | id in ids
  }

  type Buckets = map<string, seq<real>>

  ghost predicate BucketRight(bucket: seq<real>, ids: set<string>, c: string, rows: Rows)
    requires ids <= rows.Keys
  {
    SumOfSeq(bucket) == SumOver(InCategory(ids, c), rows) && |bucket| == |InCategory(ids, c)|
  }

  /** Every total of the ids seen so far is in its category's bucket. */
  ghost predicate Sorted(buckets: Buckets, ids: set<string>, rows: Rows)
    requires ids <= rows.Keys
  {
    buckets.Keys == Categories(ids) && forall c :: c in buckets ==> BucketRight(buckets[c], ids, c, rows)
  }

  lemma OneMoreInCategory(ids: set<string>, id: string, c: string, rows: Rows)
    requires id !in ids && ids <= rows.Keys && id in rows
    ensures InCategory(ids + {id}, c) == InCategory(ids, c) + if Category(id) == c then {id} else {}
    ensures Category(id) == c ==>
      SumOver(InCategory(ids + {id}, c), rows) == SumOver(InCategory(ids, c), rows) + rows[id]
  {
    assert InCategory(ids + {id}, c) == InCategory(ids, c) + if Category(id) == c then {id} else {};
    if Category(id) == c {
      SumTakesOut(InCategory(ids + {id}, c), rows, id);
      assert InCategory(ids + {id}, c) - {id} == InCategory(ids, c);
    }
  }

  lemma EmptyCategory(ids: set<string>, c: string, rows: Rows)
    requires c !in Categories(ids) && ids <= rows.Keys
    ensures InCategory(ids, c) == {} && SumOver(InCategory(ids, c), rows) == 0.0
  {
    forall id | id in ids
      ensures Category(id) != c
    {
      assert Category(id) in Categories(ids);
    }
    assert InCategory(ids, c) == {};
  }

  function Added(buckets: Buckets, c: string, total: real): Buckets {
    buckets[c := BucketAt(buckets, c) + [total]]
  }

  function BucketAt(buckets: Buckets, c: string): seq<real> {
    if c in buckets then buckets[c] else []
  }

  lemma BucketGrows(bucket: seq<real>, ids: set<string>, id: string, rows: Rows)
    requires ids <= rows.Keys && id !in ids && id in rows && BucketRight(bucket, ids, Category(id), rows)
    ensures BucketRight(bucket + [rows[id]], ids + {id}, Category(id), rows)
  {
    OneMoreInCategory(ids, id, Category(id), rows);
    assert (bucket + [rows[id]])[..|bucket|] == bucket;
  }

  lemma AddedSorted(buckets: Buckets, ids: set<string>, id: string, rows: Rows)
    requires ids <= rows.Keys && Sorted(buckets, ids, rows) && id !in ids && id in rows
    ensures Sorted(Added(buckets, Category(id), rows[id]), ids + {id}, rows)
  {
    var own := Category(id);
    var after := Added(buckets, own, rows[id]);
    assert Categories(ids + {id}) == Categories(ids) + {own};
    forall c | c in after
      ensures BucketRight(after[c], ids + {id}, c, rows)
    {
      if c == own {
        if c in buckets {
          BucketGrows(buckets[c], ids, id, rows);
        } else {
          FirstOfCategory(ids, id, rows);
          assert after[c] == [] + [rows[id]] == [rows[id]];
        }
      } else {
        OtherBucket(after[c], ids, id, c, rows);
      }
    }
  }

  lemma OtherBucket(bucket: seq<real>, ids: set<string>, id: string, c: string, rows: Rows)
    requires ids <= rows.Keys && id !in ids && id in rows && BucketRight(bucket, ids, c, rows) && Category(id) != c
    ensures BucketRight(bucket, ids + {id}, c, rows)
  {
    OneMoreInCategory(ids, id, c, rows);
  }

  lemma FirstOfCategory(ids: set<string>, id: string, rows: Rows)
    requires ids <= rows.Keys && id !in ids && id in rows && Category(id) !in Categories(ids)
    ensures BucketRight([rows[id]], ids + {id}, Category(id), rows)
  {
    EmptyCategory(ids, Category(id), rows);
    BucketGrows([], ids, id, rows);
    assert [] + [rows[id]] == [rows[id]];
  }

  lemma OneMoreId(ids: seq<string>, i: nat)
    requires Distinct(ids) && i < |ids|
    ensures ids[i] in SetOf(ids) && ids[i] !in SetOf(ids[..i]) && SetOf(ids[..i]) <= SetOf(ids)
    ensures SetOf(ids[..i + 1]) == SetOf(ids[..i]) + {ids[i]}
  {
    assert ids[..i + 1] == ids[..i] + [ids[i]];
  }

  method FillBuckets(ids: seq<string>, rows: Rows) returns (buckets: Buckets)
    requires Distinct(ids) && SetOf(ids) == rows.Keys
    ensures Sorted(buckets, rows.Keys, rows)
  {
    buckets := map[];
    for i := 0 to |ids|
      invariant SetOf(ids[..i]) <= rows.Keys && Sorted(buckets, SetOf(ids[..i]), rows)
    {
      OneMoreId(ids, i);
      AddedSorted(buckets, SetOf(ids[..i]), ids[i], rows);
      buckets := Added(buckets, Category(ids[i]), rows[ids[i]]);
    }
    assert ids[..|ids|] == ids;
  }

  lemma BucketMean(buckets: Buckets, rows: Rows, c: string)
    requires Sorted(buckets, rows.Keys, rows) && c in buckets
    ensures |buckets[c]| > 0 && SumOfSeq(buckets[c]) / |buckets[c]| as real == CategoryMean(rows, c)
  {
    var id :| id in rows && Category(id) == c;
    assert id in InCategory(rows.Keys, c);
  }

  method MeanOfEach(buckets: Buckets, ghost rows: Rows) returns (categories: Rows)
    requires Sorted(buckets, rows.Keys, rows)
    ensures categories == CategoryMeans(rows)
  {
    forall c | c in buckets
      ensures |buckets[c]| > 0 && SumOfSeq(buckets[c]) / |buckets[c]| as real == CategoryMean(rows, c)
    {
      BucketMean(buckets, rows, c);
    }
    categories := map c | c in buckets :: SumOfSeq(buckets[c]) / |buckets[c]| as real;
  }

  method SumOfValues(m: Rows) returns (sum: real)
    ensures sum == SumOver(m.Keys, m)
  {
    sum := 0.0;
    var rest := m.Keys;
    while rest != {}
      invariant rest <= m.Keys && sum + SumOver(rest, m) == SumOver(m.Keys, m)
      decreases |rest|
    {
      var c :| c in rest;
      SumTakesOut(rest, m, c);
      sum := sum + m[c];
      rest := rest - {c};
    }
  }

  /** The arithmetic `aggregate` and the gate share: a category mean over its tasks, the total over
      the category means; no tasks, no total. */
  method Means(ids: seq<string>, rows: Rows) returns (total: Option<real>, categories: Rows)
    requires Distinct(ids) && SetOf(ids) == rows.Keys
    ensures categories == CategoryMeans(rows)
    ensures total == if |rows| == 0 then None else Some(MeanOfMeans(rows))
  {
    var buckets := FillBuckets(ids, rows);
    categories := MeanOfEach(buckets, rows);
    if |rows| == 0 {
      return None, categories;
    }
    SomeCategory(rows);
    var sum := SumOfValues(categories);
    total := Some(sum / |categories.Keys| as real);
  }

  // ------------------------------------------------------------ aggregate

  datatype Row = Row(total: real, missing: bool)

  datatype Report = Report(taskSet: Option<string>, harness: Option<string>, tasks: map<string, Row>)

  function Totals(tasks: map<string, Row>): Rows {
    map id | id in tasks :: tasks[id].total
  }

  /** One row per id with a score or on the roster; an id with no score counts zero. */
  function Aggregated(scores: Rows, roster: set<string>): map<string, Row> {
    map id | id in scores.Keys + roster :: if id in scores then Row(scores[id], false) else Row(0.0, true)
  }

  // ------------------------------------------------------------ the gate

  const BASELINE_SCHEMA := 1

  datatype Baseline = Baseline(schema: Option<int>, total: Option<real>, taskSet: Option<string>,
                               harness: Option<string>, categories: map<string, Option<real>>, tasks: set<string>)

  datatype Status = Met | Regressed | Incomparable | Unrecorded

  datatype Regression = Coverage(missing: set<string>) | Drop(scope: Scope, was: real, measured: real)
  datatype Scope = Overall | InOne(category: string)

  function Uncovered(rows: Rows, baseline: Baseline): set<string> {
    baseline.tasks - rows.Keys
  }

  /** The rows with every uncovered baseline task folded in as a zero. */
  function WithCoverage(rows: Rows, baseline: Baseline): (covered: Rows)
    ensures covered.Keys == rows.Keys + baseline.tasks
  {
    rows + Zeros(Uncovered(rows, baseline))
  }

  /** Folding the missing tasks in as zeros never raises a category mean. */
  lemma FoldingLowersCategories(rows: Rows, baseline: Baseline, c: string)
    requires c in Categories(rows.Keys) && forall id :: id in rows ==> rows[id] >= 0.0
    ensures c in Categories(WithCoverage(rows, baseline).Keys)
    ensures CategoryMean(WithCoverage(rows, baseline), c) <= CategoryMean(rows, c)
  {
    var covered := WithCoverage(rows, baseline);
    var id :| id in rows && Category(id) == c;
    assert id in InCategory(rows.Keys, c);
    MeanFalls(InCategory(covered.Keys, c), covered, InCategory(rows.Keys, c), rows);
  }

  lemma NewCategoryIsZero(rows: Rows, baseline: Baseline, c: string)
    requires c in Categories(WithCoverage(rows, baseline).Keys) && c !in Categories(rows.Keys)
    ensures CategoryMean(WithCoverage(rows, baseline), c) == 0.0
  {
    var covered := WithCoverage(rows, baseline);
    var s := InCategory(covered.Keys, c);
    forall id | id in s
      ensures covered[id] == 0.0
    {
      assert id !in rows;
    }
    SumSame(s, covered, Zeros(s));
    SumOfZeros(s);
  }

  lemma CategoryMeanNotNegative(rows: Rows, c: string)
    requires c in Categories(rows.Keys) && forall id :: id in rows ==> rows[id] >= 0.0
    ensures CategoryMean(rows, c) >= 0.0
  {
    SumNotNegative(InCategory(rows.Keys, c), rows);
    var id :| id in rows && Category(id) == c;
    assert id in InCategory(rows.Keys, c);
    QuotientMonotone(0.0, SumOver(InCategory(rows.Keys, c), rows), |InCategory(rows.Keys, c)| as real);
  }

  /** Nor the mean of means. */
  lemma FoldingLowersTotal(rows: Rows, baseline: Baseline)
    requires |rows| > 0 && forall id :: id in rows ==> rows[id] >= 0.0
    ensures |WithCoverage(rows, baseline)| > 0
    ensures MeanOfMeans(WithCoverage(rows, baseline)) <= MeanOfMeans(rows)
  {
    var covered := WithCoverage(rows, baseline);
    var some :| some in rows;
    assert some in covered;
    SomeCategory(rows);
    forall c | c in Categories(rows.Keys)
      ensures 0.0 <= CategoryMeans(rows)[c] && CategoryMeans(covered)[c] <= CategoryMeans(rows)[c]
    {
      FoldingLowersCategories(rows, baseline, c);
      CategoryMeanNotNegative(rows, c);
    }
    forall c | c in Categories(covered.Keys) - Categories(rows.Keys)
      ensures CategoryMeans(covered)[c] == 0.0
    {
      NewCategoryIsZero(rows, baseline, c);
    }
    assert Categories(rows.Keys) <= Categories(covered.Keys);
    MeanFalls(Categories(covered.Keys), CategoryMeans(covered), Categories(rows.Keys), CategoryMeans(rows));
  }

  /** With nothing missing the gate compares exactly the numbers the report carries. */
  lemma NothingMissingNothingChanges(rows: Rows, baseline: Baseline)
    requires baseline.tasks <= rows.Keys
    ensures WithCoverage(rows, baseline) == rows
    ensures |rows| > 0 ==> MeanOfMeans(WithCoverage(rows, baseline)) == MeanOfMeans(rows)
  {
    assert Zeros({}) == map[];
    assert Uncovered(rows, baseline) == {};
  }

  /** What gating came to; a gate that could not compare lists nothing. */
  datatype Verdict = Verdict(status: Status, regressions: seq<Regression>)

  /** The gate compares differences rounded to the report's precision; all that matters about
      rounding is that it keeps the order. */
  ghost predicate Rounds(round: real -> real) {
    forall a, b :: a <= b ==> round(a) <= round(b)
  }

  predicate Drops(round: real -> real, measured: real, was: real, epsilon: real) {
    round(measured - was) < -epsilon
  }

  /** A category the run never produced measures zero. */
  function Measured(means: Rows, c: string): real {
    if c in means then means[c] else 0.0
  }

  /** No gated category drops; one the baseline left unrecorded is not gated. */
  predicate CategoriesHold(round: real -> real, means: Rows, baseline: Baseline, epsilon: real, names: set<string>) {
    forall c :: c in names && c in baseline.categories && baseline.categories[c].Some? ==>
      !Drops(round, Measured(means, c), baseline.categories[c].value, epsilon)
  }

  predicate Comparable(report: Report, baseline: Baseline) {
    baseline.taskSet == report.taskSet && baseline.harness == report.harness
  }

  /** The gate holds: nothing is missing and no gated scope drops by more than epsilon. */
  ghost predicate Holds(round: real -> real, rows: Rows, baseline: Baseline, epsilon: real)
    requires baseline.total.Some?
  {
    var covered := WithCoverage(rows, baseline);
    && Uncovered(rows, baseline) == {}
    && (|covered| > 0 ==> !Drops(round, MeanOfMeans(covered), baseline.total.value, epsilon))
    && CategoriesHold(round, CategoryMeans(covered), baseline, epsilon, baseline.categories.Keys)
  }

  ghost function StatusOf(round: real -> real, report: Report, baseline: Baseline, epsilon: real): Status {
    if baseline.schema != Some(BASELINE_SCHEMA) then Incomparable
    else if baseline.total.None? then Unrecorded
    else if !Comparable(report, baseline) then Incomparable
    else if Holds(round, Totals(report.tasks), baseline, epsilon) then Met
    else Regressed
  }

  /** What is listed for one gated category. */
  function DropOf(round: real -> real, means: Rows, baseline: Baseline, epsilon: real, c: string): seq<Regression>
    requires c in baseline.categories
  {
    match baseline.categories[c]
    case None => []
    case Some(was) =>
      if Drops(round, Measured(means, c), was, epsilon) then [Drop(InOne(c), was, Measured(means, c))] else []
  }

  function DropsOf(round: real -> real, means: Rows, baseline: Baseline, epsilon: real,
                   names: seq<string>): seq<Regression>
    requires forall c :: c in names ==> c in baseline.categories
  {
    if names == [] then []
    else
      var n := |names| - 1;
      DropsOf(round, means, baseline, epsilon, names[..n]) + DropOf(round, means, baseline, epsilon, names[n])
  }

  function CoverageOf(missing: set<string>): seq<Regression> {
    if missing == {} then [] else [Coverage(missing)]
  }

  function OverallOf(round: real -> real, total: Option<real>, was: real, epsilon: real): seq<Regression> {
    if total.Some? && Drops(round, total.value, was, epsilon) then [Drop(Overall, was, total.value)] else []
  }

  /** Missing tasks first, then the total, then the gated categories by name. */
  ghost function RegressionsOf(round: real -> real, rows: Rows, baseline: Baseline, epsilon: real, names: seq<string>)
    : seq<Regression>
    requires baseline.total.Some? && forall c :: c in names ==> c in baseline.categories
  {
    var covered := WithCoverage(rows, baseline);
    var total := if |covered| > 0 then Some(MeanOfMeans(covered)) else None;
    CoverageOf(Uncovered(rows, baseline)) + OverallOf(round, total, baseline.total.value, epsilon)
    + DropsOf(round, CategoryMeans(covered), baseline, epsilon, names)
  }

  lemma {:induction false} DropsOfEmpty(round: real -> real, means: Rows, baseline: Baseline, epsilon: real,
                                        names: seq<string>)
    requires forall c :: c in names ==> c in baseline.categories
    ensures DropsOf(round, means, baseline, epsilon, names) == []
      <==> CategoriesHold(round, means, baseline, epsilon, SetOf(names))
  {
    if names != [] {
      var n := |names| - 1;
      DropsOfEmpty(round, means, baseline, epsilon, names[..n]);
      assert names == names[..n] + [names[n]];
      assert SetOf(names) == SetOf(names[..n]) + {names[n]};
    }
  }

  /** The gate lists nothing exactly when no baseline task is missing and no gated scope drops. */
  lemma NothingListedIff(round: real -> real, rows: Rows, baseline: Baseline, epsilon: real, names: seq<string>)
    requires baseline.total.Some? && SetOf(names) == baseline.categories.Keys
    requires forall c :: c in names ==> c in baseline.categories
    ensures RegressionsOf(round, rows, baseline, epsilon, names) == [] <==> Holds(round, rows, baseline, epsilon)
  {
    DropsOfEmpty(round, CategoryMeans(WithCoverage(rows, baseline)), baseline, epsilon, names);
  }

  method GateCategories(round: real -> real, means: Rows, baseline: Baseline, epsilon: real, names: seq<string>)
    returns (drops: seq<Regression>)
    requires forall c :: c in names ==> c in baseline.categories
    ensures drops == DropsOf(round, means, baseline, epsilon, names)
  {
    drops := [];
    for i := 0 to |names|
      invariant drops == DropsOf(round, means, baseline, epsilon, names[..i])
    {
      assert names[..i + 1][..i] == names[..i];
      match baseline.categories[names[i]]
      case None =>
      case Some(was) =>
        if Drops(round, Measured(means, names[i]), was, epsilon) {
          drops := drops + [Drop(InOne(names[i]), was, Measured(means, names[i]))];
        }
    }
    assert names[..|names|] == names;
  }

  method Gate(round: real -> real, rows: Rows, baseline: Baseline, epsilon: real, ids: seq<string>, names: seq<string>)
    returns (regressions: seq<Regression>)
    requires baseline.total.Some? && Distinct(ids) && SetOf(ids) == rows.Keys + baseline.tasks
    requires forall c :: c in names ==> c in baseline.categories
    ensures regressions == RegressionsOf(round, rows, baseline, epsilon, names)
  {
    var covered := WithCoverage(rows, baseline);
    var total, means := Means(ids, covered);
    var drops := GateCategories(round, means, baseline, epsilon, names);
    regressions := CoverageOf(Uncovered(rows, baseline)) + OverallOf(round, total, baseline.total.value, epsilon);
    regressions := regressions + drops;
  }

  /** `ids` lists the covered rows, `names` the baseline's categories, each once. */
  method CompareBaseline(round: real -> real, report: Report, baseline: Baseline, epsilon: real,
                         ids: seq<string>, names: seq<string>)
    returns (v: Verdict)
    requires Distinct(ids) && SetOf(ids) == report.tasks.Keys + baseline.tasks
    requires SetOf(names) == baseline.categories.Keys && forall c :: c in names ==> c in baseline.categories
    ensures v.status == StatusOf(round, report, baseline, epsilon)
    ensures v.regressions == if v.status == Regressed
      then RegressionsOf(round, Totals(report.tasks), baseline, epsilon, names) else []
  {
    if baseline.schema != Some(BASELINE_SCHEMA) {
      return Verdict(Incomparable, []);
    }
    if baseline.total.None? {
      return Verdict(Unrecorded, []);
    }
    if !Comparable(report, baseline) {
      return Verdict(Incomparable, []);
    }
    var regressions := Gate(round, Totals(report.tasks), baseline, epsilon, ids, names);
    NothingListedIff(round, Totals(report.tasks), baseline, epsilon, names);
    v := Verdict(if regressions == [] then Met else Regressed, regressions);
  }

  function ExitCode(status: Option<Status>): int {
    match status
    case Some(Incomparable) => 2
    case Some(Regressed) => 1
    case _ => 0
  }

  // ------------------------------------------------------------ what the gate cannot be talked out of

  predicate Gated(report: Report, baseline: Baseline) {
    baseline.schema == Some(BASELINE_SCHEMA) && baseline.total.Some? && Comparable(report, baseline)
  }

  /** Leaving a task the baseline names out of the report always fails the gate, whatever epsilon. */
  lemma LeavingATaskOutFails(round: real -> real, report: Report, baseline: Baseline, epsilon: real, id: string)
    requires Gated(report, baseline) && id in baseline.tasks
    ensures var without := report.(tasks := report.tasks - {id});
      StatusOf(round, without, baseline, epsilon) == Regressed
        && ExitCode(Some(StatusOf(round, without, baseline, epsilon))) == 1
  {
    var without := report.(tasks := report.tasks - {id});
    assert id in Uncovered(Totals(without.tasks), baseline);
  }

  /** A task that was on the roster but never ran is a zero row, so it is not missing to the gate:
      a baseline task is reported missing exactly when it has neither a score nor a place on the
      roster. */
  lemma OnlyUnrosteredIsMissing(scores: Rows, roster: set<string>, baseline: Baseline)
    ensures Uncovered(Totals(Aggregated(scores, roster)), baseline) == baseline.tasks - (scores.Keys + roster)
  {
  }

  /** The score where there is one, zero elsewhere. */
  function ScoresOver(scores: Rows, ids: set<string>): Rows {
    map id | id in ids :: if id in scores then scores[id] else 0.0
  }

  lemma CoveredAggregate(scores: Rows, roster: set<string>, baseline: Baseline)
    ensures WithCoverage(Totals(Aggregated(scores, roster)), baseline)
      == ScoresOver(scores, scores.Keys + roster + baseline.tasks)
  {
    var tasks := Aggregated(scores, roster);
    assert Totals(tasks) == ScoresOver(scores, scores.Keys + roster);
    var covered := WithCoverage(Totals(tasks), baseline);
    var want := ScoresOver(scores, scores.Keys + roster + baseline.tasks);
    assert covered.Keys == want.Keys;
    forall id | id in want
      ensures covered[id] == want[id]
    {
    }
  }

  /** The numbers gated are the same whether or not a baseline task that never ran was on the
      roster; only the coverage entry differs. */
  lemma RosterHidesOnlyCoverage(scores: Rows, roster: set<string>, id: string, baseline: Baseline)
    requires id in baseline.tasks && id !in scores
    ensures WithCoverage(Totals(Aggregated(scores, roster + {id})), baseline)
      == WithCoverage(Totals(Aggregated(scores, roster)), baseline)
    ensures id !in Uncovered(Totals(Aggregated(scores, roster + {id})), baseline)
    ensures id !in roster ==> id in Uncovered(Totals(Aggregated(scores, roster)), baseline)
  {
    CoveredAggregate(scores, roster + {id}, baseline);
    CoveredAggregate(scores, roster, baseline);
    assert scores.Keys + (roster + {id}) + baseline.tasks == scores.Keys + roster + baseline.tasks;
  }

  /** The same tasks, none with a lower total. */
  predicate Improves(better: map<string, Row>, tasks: map<string, Row>) {
    better.Keys == tasks.Keys && forall id :: id in tasks ==> tasks[id].total <= better[id].total
  }

  lemma MeanGrows(s: set<string>, low: Rows, high: Rows)
    requires s != {} && s <= low.Keys && s <= high.Keys && forall x :: x in s ==> low[x] <= high[x]
    ensures MeanOver(s, low) <= MeanOver(s, high)
  {
    SumMonotone(s, low, high);
    QuotientMonotone(SumOver(s, low), SumOver(s, high), |s| as real);
  }

  lemma CategoryMeansGrow(low: Rows, high: Rows, c: string)
    requires low.Keys == high.Keys && (forall id :: id in low ==> low[id] <= high[id]) && c in Categories(low.Keys)
    ensures CategoryMean(low, c) <= CategoryMean(high, c)
  {
    var id :| id in low && Category(id) == c;
    assert id in InCategory(low.Keys, c);
    MeanGrows(InCategory(low.Keys, c), low, high);
  }

  lemma TotalGrows(low: Rows, high: Rows)
    requires low.Keys == high.Keys && (forall id :: id in low ==> low[id] <= high[id]) && |low| > 0
    ensures |high| > 0 && MeanOfMeans(low) <= MeanOfMeans(high)
  {
    assert |low| == |low.Keys| == |high.Keys| == |high|;
    SomeCategory(low);
    forall c | c in Categories(low.Keys)
      ensures CategoryMeans(low)[c] <= CategoryMeans(high)[c]
    {
      CategoryMeansGrow(low, high, c);
    }
    MeanGrows(Categories(low.Keys), CategoryMeans(low), CategoryMeans(high));
  }

  lemma NoDropAfterGain(round: real -> real, low: real, high: real, was: real, epsilon: real)
    requires Rounds(round) && low <= high && !Drops(round, low, was, epsilon)
    ensures !Drops(round, high, was, epsilon)
  {
    assert round(low - was) <= round(high - was);
  }

  /** A run that meets the gate still meets it after any of its tasks improve. */
  lemma BetterTasksKeepTheGate(round: real -> real, report: Report, better: map<string, Row>, baseline: Baseline,
                               epsilon: real)
    requires Rounds(round) && Gated(report, baseline) && Improves(better, report.tasks)
    requires StatusOf(round, report, baseline, epsilon) == Met
    ensures StatusOf(round, report.(tasks := better), baseline, epsilon) == Met
  {
    var low, high := WithCoverage(Totals(report.tasks), baseline), WithCoverage(Totals(better), baseline);
    assert low.Keys == high.Keys;
    assert forall id :: id in low ==> low[id] <= high[id];
    if |low| > 0 {
      TotalGrows(low, high);
      NoDropAfterGain(round, MeanOfMeans(low), MeanOfMeans(high), baseline.total.value, epsilon);
    } else {
      assert |high| == |high.Keys| == |low.Keys| == 0;
    }
    forall c | c in baseline.categories && baseline.categories[c].Some?
      ensures !Drops(round, Measured(CategoryMeans(high), c), baseline.categories[c].value, epsilon)
    {
      if c in Categories(low.Keys) {
        CategoryMeansGrow(low, high, c);
      }
      NoDropAfterGain(round, Measured(CategoryMeans(low), c), Measured(CategoryMeans(high), c),
                      baseline.categories[c].value, epsilon);
    }
  }

  // ------------------------------------------------------------ the printed report

  /** What the report is printed to: six decimals. */
  const UNIT := 0.000001

  function Units(k: int): real {
    k as real * UNIT
  }

  /** Rounding to six decimals: in order, to a nearest one, and leaving those that are one alone. */
  ghost predicate RoundsToSix(round: real -> real) {
    && Rounds(round)
    && (forall x :: Abs(round(x) - x) <= UNIT / 2.0)
    && (forall k :: round(Units(k)) == Units(k))
  }

  ghost function PrintedRows(round: real -> real, rows: Rows): Rows {
    map id | id in rows :: round(rows[id])
  }

  lemma OneMoreTimes(n: int, h: real)
    ensures n as real * h == (n - 1) as real * h + h
  {
    assert n as real == (n - 1) as real + 1.0;
  }

  lemma {:induction false} SumWithin(s: set<string>, low: Rows, high: Rows, h: real)
    requires s <= low.Keys && s <= high.Keys && forall x :: x in s ==> high[x] <= low[x] + h
    ensures SumOver(s, high) <= SumOver(s, low) + |s| as real * h
    decreases |s|
  {
    if s != {} {
      var x :| x in s;
      SumWithin(s - {x}, low, high, h);
      SumTakesOut(s, low, x);
      SumTakesOut(s, high, x);
      OneMoreTimes(|s|, h);
      assert |s - {x}| == |s| - 1;
    }
  }

  lemma QuotientWithin(a: real, b: real, n: real, h: real)
    requires n > 0.0 && b <= a + n * h
    ensures b / n <= a / n + h
  {
    QuotientMonotone(b, a + n * h, n);
    assert (a + n * h) / n == a / n + h;
  }

  lemma MeanWithin(s: set<string>, a: Rows, b: Rows, h: real)
    requires s != {} && s <= a.Keys && s <= b.Keys && forall x :: x in s ==> Abs(a[x] - b[x]) <= h
    ensures Abs(MeanOver(s, a) - MeanOver(s, b)) <= h
  {
    SumWithin(s, a, b, h);
    SumWithin(s, b, a, h);
    QuotientWithin(SumOver(s, a), SumOver(s, b), |s| as real, h);
    QuotientWithin(SumOver(s, b), SumOver(s, a), |s| as real, h);
  }

  lemma CategoryMeanWithin(a: Rows, b: Rows, h: real, c: string)
    requires a.Keys == b.Keys && (forall id :: id in a ==> Abs(a[id] - b[id]) <= h) && c in Categories(a.Keys)
    ensures Abs(CategoryMean(a, c) - CategoryMean(b, c)) <= h
  {
    var id :| id in a && Category(id) == c;
    assert id in InCategory(a.Keys, c);
    MeanWithin(InCategory(a.Keys, c), a, b, h);
  }

  lemma TotalWithin(a: Rows, b: Rows, h: real)
    requires a.Keys == b.Keys && (forall id :: id in a ==> Abs(a[id] - b[id]) <= h) && |a| > 0
    ensures |b| > 0 && Abs(MeanOfMeans(a) - MeanOfMeans(b)) <= h
  {
    assert |a| == |a.Keys| == |b.Keys| == |b|;
    SomeCategory(a);
    forall c | c in Categories(a.Keys)
      ensures Abs(CategoryMeans(a)[c] - CategoryMeans(b)[c]) <= h
    {
      CategoryMeanWithin(a, b, h, c);
    }
    MeanWithin(Categories(a.Keys), CategoryMeans(a), CategoryMeans(b), h);
  }

  lemma RoundsClose(round: real -> real, x: real, y: real)
    requires RoundsToSix(round) && Abs(x - y) <= UNIT / 2.0
    ensures Abs(x - round(y)) <= UNIT
  {
    assert Abs(round(y) - y) <= UNIT / 2.0;
  }

  lemma RowsClose(round: real -> real, rows: Rows, id: string)
    requires RoundsToSix(round) && id in rows
    ensures Abs(PrintedRows(round, rows)[id] - rows[id]) <= UNIT / 2.0
  {
    assert Abs(round(rows[id]) - rows[id]) <= UNIT / 2.0;
  }

  lemma AllRowsClose(round: real -> real, rows: Rows)
    requires RoundsToSix(round)
    ensures forall id :: id in rows ==> Abs(PrintedRows(round, rows)[id] - rows[id]) <= UNIT / 2.0
  {
    forall id | id in rows
      ensures Abs(PrintedRows(round, rows)[id] - rows[id]) <= UNIT / 2.0
    {
      RowsClose(round, rows, id);
    }
  }

  /** The gate works its means out again from printed rows: a category's is within a millionth of
      the one the report prints. */
  lemma PrintedCategoryWithin(round: real -> real, rows: Rows, c: string)
    requires RoundsToSix(round) && c in Categories(rows.Keys)
    ensures Abs(CategoryMean(PrintedRows(round, rows), c) - round(CategoryMean(rows, c))) <= UNIT
  {
    var printed := PrintedRows(round, rows);
    AllRowsClose(round, rows);
    CategoryMeanWithin(printed, rows, UNIT / 2.0, c);
    RoundsClose(round, CategoryMean(printed, c), CategoryMean(rows, c));
  }

  /** And so is the total. */
  lemma PrintedTotalWithin(round: real -> real, rows: Rows)
    requires RoundsToSix(round) && |rows| > 0
    ensures |PrintedRows(round, rows)| > 0
    ensures Abs(MeanOfMeans(PrintedRows(round, rows)) - round(MeanOfMeans(rows))) <= UNIT
  {
    var printed := PrintedRows(round, rows);
    AllRowsClose(round, rows);
    assert printed.Keys == rows.Keys;
    assert |printed| == |printed.Keys| == |rows|;
    TotalWithin(printed, rows, UNIT / 2.0);
    RoundsClose(round, MeanOfMeans(printed), MeanOfMeans(rows));
  }

  // ------------------------------------------------------------ a report as a baseline

  /** The printed report of some scores. */
  ghost function PrintedReport(round: real -> real, rows: Rows, taskSet: Option<string>, harness: Option<string>)
    : Report
  {
    Report(taskSet, harness, map id | id in rows :: Row(round(rows[id]), false))
  }

  function RoundedAll(round: real -> real, means: Rows): map<string, Option<real>> {
    map c | c in means :: Some(round(means[c]))
  }

  /** The baseline a printed report is turned into: its total, its category totals and its tasks. */
  ghost function BaselineOf(round: real -> real, rows: Rows, taskSet: Option<string>, harness: Option<string>)
    : Baseline
    requires |rows| > 0
  {
    Baseline(Some(BASELINE_SCHEMA), Some(round(MeanOfMeans(rows))), taskSet, harness,
             RoundedAll(round, CategoryMeans(rows)), rows.Keys)
  }

  lemma NoDropWithinUnit(round: real -> real, measured: real, was: real, epsilon: real)
    requires RoundsToSix(round) && Abs(measured - was) <= UNIT && epsilon >= UNIT
    ensures !Drops(round, measured, was, epsilon)
  {
    assert Units(-1) == -UNIT;
    assert round(Units(-1)) <= round(measured - was);
  }

  /** Means that are within a millionth of what the baseline records of each category. */
  ghost predicate CloseMeans(round: real -> real, measured: Rows, means: Rows) {
    measured.Keys == means.Keys && forall c :: c in means ==> Abs(measured[c] - round(means[c])) <= UNIT
  }

  lemma CloseMeansHold(round: real -> real, measured: Rows, means: Rows, baseline: Baseline, epsilon: real)
    requires RoundsToSix(round) && epsilon >= UNIT && CloseMeans(round, measured, means)
    requires baseline.categories == RoundedAll(round, means)
    ensures CategoriesHold(round, measured, baseline, epsilon, baseline.categories.Keys)
  {
    forall c | c in baseline.categories
      ensures !Drops(round, Measured(measured, c), baseline.categories[c].value, epsilon)
    {
      NoDropWithinUnit(round, measured[c], round(means[c]), epsilon);
    }
  }

  lemma PrintedMeansClose(round: real -> real, rows: Rows)
    requires RoundsToSix(round)
    ensures CloseMeans(round, CategoryMeans(PrintedRows(round, rows)), CategoryMeans(rows))
  {
    assert PrintedRows(round, rows).Keys == rows.Keys;
    forall c | c in Categories(rows.Keys)
      ensures Abs(CategoryMeans(PrintedRows(round, rows))[c] - round(CategoryMeans(rows)[c])) <= UNIT
    {
      PrintedCategoryWithin(round, rows, c);
    }
  }

  lemma OwnBaselineHolds(round: real -> real, rows: Rows, taskSet: Option<string>, harness: Option<string>,
                         epsilon: real)
    requires RoundsToSix(round) && |rows| > 0 && epsilon >= UNIT
    ensures Holds(round, PrintedRows(round, rows), BaselineOf(round, rows, taskSet, harness), epsilon)
  {
    var printed, baseline := PrintedRows(round, rows), BaselineOf(round, rows, taskSet, harness);
    NothingMissingNothingChanges(printed, baseline);
    PrintedTotalWithin(round, rows);
    NoDropWithinUnit(round, MeanOfMeans(printed), round(MeanOfMeans(rows)), epsilon);
    PrintedMeansClose(round, rows);
    CloseMeansHold(round, CategoryMeans(printed), CategoryMeans(rows), baseline, epsilon);
  }

  lemma HoldsIsMet(round: real -> real, report: Report, rows: Rows, baseline: Baseline, epsilon: real)
    requires Gated(report, baseline) && Totals(report.tasks) == rows && Holds(round, rows, baseline, epsilon)
    ensures StatusOf(round, report, baseline, epsilon) == Met
  {
  }

  lemma TotalsOfPrinted(round: real -> real, rows: Rows, taskSet: Option<string>, harness: Option<string>)
    ensures Totals(PrintedReport(round, rows, taskSet, harness).tasks) == PrintedRows(round, rows)
  {
  }

  /** A run meets the baseline made from its own report for every epsilon of a millionth or more. */
  lemma MeetsItsOwnBaseline(round: real -> real, rows: Rows, taskSet: Option<string>, harness: Option<string>,
                            epsilon: real)
    requires RoundsToSix(round) && |rows| > 0 && epsilon >= UNIT
    ensures StatusOf(round, PrintedReport(round, rows, taskSet, harness),
                     BaselineOf(round, rows, taskSet, harness), epsilon) == Met
  {
    TotalsOfPrinted(round, rows, taskSet, harness);
    OwnBaselineHolds(round, rows, taskSet, harness, epsilon);
    HoldsIsMet(round, PrintedReport(round, rows, taskSet, harness), PrintedRows(round, rows),
               BaselineOf(round, rows, taskSet, harness), epsilon);
  }
}
