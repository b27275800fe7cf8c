/** What the release gate says, in terms of the two documents it compares: which category a task is in,
    when each verdict and each regression is given, and what the process exits with. */
module GateMeaning {
  import opened Arith
  import opened Options
  import opened ReleaseGate

  /** A task's category is what stands before the first slash of its id, or all of it. */
  lemma {:induction false} CategoryIff(id: string, c: string)
    ensures Category(id) == c <==> '/' !in c && (id == c || c + "/" <= id)
  {
    assert c != "" ==> c[0] in c && (c + "/")[0] == c[0];
    if id == "" || id[0] == '/' {
      assert c == "" ==> c + "/" == "/";
    } else if c != "" {
      CategoryIff(id[1..], c[1..]);
      assert c == [c[0]] + c[1..] && id == [id[0]] + id[1..];
      assert c + "/" == [c[0]] + (c[1..] + "/");
      assert c + "/" <= id <==> c[0] == id[0] && c[1..] + "/" <= id[1..];
      assert '/' in c <==> c[0] == '/' || '/' in c[1..];
    } else {
      assert "" + "/" == "/";
    }
  }

  // ------------------------------------------------------------ the verdict

  /** The scores compared: every task either document names, a zero where the report has none. */
  function Compared(report: Report, baseline: Baseline): (rows: Rows)
    ensures rows.Keys == report.tasks.Keys + baseline.tasks
  {
    map id | id in report.tasks.Keys + baseline.tasks :: if id in report.tasks then report.tasks[id].total else 0.0
  }

  lemma ComparedIsCovered(report: Report, baseline: Baseline)
    ensures WithCoverage(Totals(report.tasks), baseline) == Compared(report, baseline)
  {
    var covered := WithCoverage(Totals(report.tasks), baseline);
    assert covered.Keys == Compared(report, baseline).Keys;
  }

  /** What a category scored; one the run never produced scored zero. */
  ghost function Scored(rows: Rows, c: string): real {
    if c in Categories(rows.Keys) then CategoryMean(rows, c) else 0.0
  }

  /** A difference of at most epsilon down, at the printed precision. */
  predicate NotBelow(round: real -> real, now: real, was: real, epsilon: real) {
    epsilon + round(now - was) >= 0.0
  }

  /** Nothing the baseline records is lost: every task it names is in the report, and neither the total
      nor any category it has a number for is down by more than epsilon. */
  ghost predicate NothingLost(round: real -> real, report: Report, baseline: Baseline, epsilon: real) {
    var rows := Compared(report, baseline);
    && (forall id :: id in baseline.tasks ==> id in report.tasks)
    && (|rows| > 0 && baseline.total.Some? ==> NotBelow(round, MeanOfMeans(rows), baseline.total.value, epsilon))
    && CategoriesKept(round, rows, baseline, epsilon)
  }

  lemma NoneMissingIff(report: Report, baseline: Baseline)
    ensures Uncovered(Totals(report.tasks), baseline) == baseline.tasks - report.tasks.Keys
    ensures Uncovered(Totals(report.tasks), baseline) == {} <==>
      forall id :: id in baseline.tasks ==> id in report.tasks
  {
    assert Totals(report.tasks).Keys == report.tasks.Keys;
    if Uncovered(Totals(report.tasks), baseline) == {} {
      forall id | id in baseline.tasks
        ensures id in report.tasks
      {
        assert id !in Uncovered(Totals(report.tasks), baseline);
      }
    }
  }

  lemma MeasuredIsScored(rows: Rows, c: string)
    ensures Measured(CategoryMeans(rows), c) == Scored(rows, c)
  {
  }

  /** Every category the baseline has a number for is down by no more than epsilon. */
  ghost predicate CategoriesKept(round: real -> real, rows: Rows, baseline: Baseline, epsilon: real) {
    forall c :: c in baseline.categories && baseline.categories[c].Some? ==>
      NotBelow(round, Scored(rows, c), baseline.categories[c].value, epsilon)
  }

  lemma CategoriesIff(round: real -> real, rows: Rows, means: Rows, baseline: Baseline, epsilon: real)
    requires forall c :: Measured(means, c) == Scored(rows, c)
    ensures CategoriesHold(round, means, baseline, epsilon, baseline.categories.Keys) <==>
      CategoriesKept(round, rows, baseline, epsilon)
  {
    forall c | c in baseline.categories && baseline.categories[c].Some?
      ensures !Drops(round, Measured(means, c), baseline.categories[c].value, epsilon) <==>
        NotBelow(round, Scored(rows, c), baseline.categories[c].value, epsilon)
    {
    }
  }

  lemma HoldsIff(round: real -> real, report: Report, baseline: Baseline, epsilon: real)
    requires baseline.total.Some?
    ensures Holds(round, Totals(report.tasks), baseline, epsilon) <==> NothingLost(round, report, baseline, epsilon)
  {
    var rows := Compared(report, baseline);
    ComparedIsCovered(report, baseline);
    NoneMissingIff(report, baseline);
    forall c
      ensures Measured(CategoryMeans(rows), c) == Scored(rows, c)
    {
      MeasuredIsScored(rows, c);
    }
    CategoriesIff(round, rows, CategoryMeans(rows), baseline, epsilon);
  }

  /** Each verdict in the documents' own terms. A baseline of another schema cannot be read; one without a
      total gates nothing, whatever else differs; another task set or harness cannot be compared; and of
      what is left the gate is met exactly when nothing is lost. */
  lemma StatusIff(round: real -> real, report: Report, baseline: Baseline, epsilon: real)
    ensures var status := StatusOf(round, report, baseline, epsilon);
      var (read, known) := (baseline.schema == Some(1), baseline.total.Some?);
      var same := baseline.taskSet == report.taskSet && baseline.harness == report.harness;
      && (status == Incomparable <==> !read || (known && !same))
      && (status == Unrecorded <==> read && !known)
      && (status == Met <==> read && known && same && NothingLost(round, report, baseline, epsilon))
      && (status == Regressed <==> read && known && same && !NothingLost(round, report, baseline, epsilon))
  {
    if baseline.total.Some? {
      HoldsIff(round, report, baseline, epsilon);
    }
  }

  /** The process fails exactly on a regression or when no verdict could be given, and tells the two
      apart. */
  lemma ExitIff(status: Option<Status>)
    ensures ExitCode(status) == 1 <==> status == Some(Regressed)
    ensures ExitCode(status) == 2 <==> status == Some(Incomparable)
    ensures ExitCode(status) == 0 <==> status in {None, Some(Met), Some(Unrecorded)}
  {
  }

  // ------------------------------------------------------------ what is listed

  lemma {:induction false} DropListed(round: real -> real, means: Rows, baseline: Baseline, epsilon: real,
                                      names: seq<string>, r: Regression)
    requires forall c :: c in names ==> c in baseline.categories
    ensures r in DropsOf(round, means, baseline, epsilon, names) <==>
      && r.Drop? && r.scope.InOne? && r.scope.category in names
      && baseline.categories[r.scope.category] == Some(r.was)
      && r.measured == Measured(means, r.scope.category) && !NotBelow(round, r.measured, r.was, epsilon)
  {
    if names != [] {
      var n := |names| - 1;
      assert names == names[..n] + [names[n]];
      DropListed(round, means, baseline, epsilon, names[..n], r);
    }
  }

  lemma CoverageListed(missing: set<string>, r: Regression)
    ensures r in CoverageOf(missing) <==> r == Coverage(missing) && missing != {}
  {
  }

  lemma OverallListed(round: real -> real, total: Option<real>, was: real, epsilon: real, r: Regression)
    ensures r in OverallOf(round, total, was, epsilon) <==>
      r.Drop? && r.scope.Overall? && r.was == was && total == Some(r.measured)
      && !NotBelow(round, r.measured, r.was, epsilon)
  {
  }

  /** A regression of a gated report: the baseline's tasks it lacks, if any; the total, if it is down; or a
      recorded category that is down, each with the recorded and the measured number. */
  ghost predicate Lost(round: real -> real, report: Report, baseline: Baseline, epsilon: real, r: Regression) {
    var rows := Compared(report, baseline);
    match r
    case Coverage(missing) => missing == baseline.tasks - report.tasks.Keys && missing != {}
    case Drop(Overall, was, now) =>
      baseline.total == Some(was) && |rows| > 0 && now == MeanOfMeans(rows) && !NotBelow(round, now, was, epsilon)
    case Drop(InOne(c), was, now) =>
      c in baseline.categories && baseline.categories[c] == Some(was) && now == Scored(rows, c)
        && !NotBelow(round, now, was, epsilon)
  }

  lemma InOneOfThree(a: seq<Regression>, b: seq<Regression>, c: seq<Regression>, r: Regression)
    ensures r in a + b + c <==> r in a || r in b || r in c
  {
  }

  ghost function TotalOf(rows: Rows): Option<real> {
    if |rows| > 0 then Some(MeanOfMeans(rows)) else None
  }

  lemma ListsAre(round: real -> real, report: Report, baseline: Baseline, epsilon: real, names: seq<string>)
    requires baseline.total.Some? && forall c :: c in names ==> c in baseline.categories
    ensures var rows := Compared(report, baseline);
      RegressionsOf(round, Totals(report.tasks), baseline, epsilon, names)
      == CoverageOf(baseline.tasks - report.tasks.Keys)
         + OverallOf(round, TotalOf(rows), baseline.total.value, epsilon)
         + DropsOf(round, CategoryMeans(rows), baseline, epsilon, names)
  {
    ComparedIsCovered(report, baseline);
    NoneMissingIff(report, baseline);
  }

  /** Exactly what was lost is listed. */
  lemma ListedIff(round: real -> real, report: Report, baseline: Baseline, epsilon: real, names: seq<string>,
                  r: Regression)
    requires baseline.total.Some? && SetOf(names) == baseline.categories.Keys
    requires forall c :: c in names ==> c in baseline.categories
    ensures r in RegressionsOf(round, Totals(report.tasks), baseline, epsilon, names) <==>
      Lost(round, report, baseline, epsilon, r)
  {
    var rows := Compared(report, baseline);
    ListsAre(round, report, baseline, epsilon, names);
    var (a, b, c) := (CoverageOf(baseline.tasks - report.tasks.Keys),
                      OverallOf(round, TotalOf(rows), baseline.total.value, epsilon),
                      DropsOf(round, CategoryMeans(rows), baseline, epsilon, names));
    InOneOfThree(a, b, c, r);
    CoverageListed(baseline.tasks - report.tasks.Keys, r);
    OverallListed(round, TotalOf(rows), baseline.total.value, epsilon, r);
    DropListed(round, CategoryMeans(rows), baseline, epsilon, names, r);
    if r.Drop? && r.scope.InOne? {
      MeasuredIsScored(rows, r.scope.category);
    }
  }
}
