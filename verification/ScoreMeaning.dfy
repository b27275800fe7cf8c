/** What the subscores of `bench/scoring.py` mean, said from the attempts, the readings and the checks
    themselves: which failures are the harness's, which rows are left out, and what each share counts. */
module ScoreMeaning {
  import opened Arith
  import opened Options
  import opened Scoring
  import Interference
  import Sabotage

  // ------------------------------------------------------------ whose failure it is

  /** A failed build is ours exactly when the call raised a kernel timeout or crash or something nobody
      anticipated, or when the build timed out or crashed with a budget already spent. A part is built
      exactly when its build succeeded, and its readings are that build's. */
  lemma ClassifyIff(attempt: Attempt, remaining: Option<real>)
    ensures Classify(attempt, remaining) == HarnessError <==>
      || (attempt.Raised? && attempt.exc in {KernelError(Timeout), KernelError(Crash), Unexpected})
      || (attempt.Refused? && attempt.kind in {Timeout, Crash} && remaining.Some? && remaining.value <= 0.0)
    ensures Classify(attempt, remaining).Built? <==> attempt.Succeeded?
    ensures attempt.Succeeded? ==> Classify(attempt, remaining) == Built(attempt.metrics, attempt.overlap)
  {
  }

  /** The same of every part of a scoring run, each with what was left of the budget when it failed. */
  lemma BuildIff(found: Sabotage.Found, p: string)
    requires p in found.attempts
    ensures var (attempt, builds) := (found.attempts[p], Sabotage.BuildsOf(found));
      && p in builds
      && (builds[p] == HarnessError <==>
           || (attempt.Raised? && attempt.exc in {KernelError(Timeout), KernelError(Crash), Unexpected})
           || (attempt.Refused? && attempt.kind in {Timeout, Crash} && p in found.left && found.left[p] <= 0.0))
      && (builds[p].Built? <==> attempt.Succeeded?)
      && (attempt.Succeeded? ==> builds[p] == Built(attempt.metrics, attempt.overlap))
  {
  }

  // ------------------------------------------------------------ which rows are left out

  /** The row takes no part in the total: it weighs nothing in this task, or could not be measured. */
  predicate LeftOutBy(s: Subscore, weight: real, unmeasured: bool) {
    && (s.status == NotApplicable <==> weight == 0.0)
    && (s.status == Excluded <==> weight != 0.0 && unmeasured)
    && (s.status == NotApplicable ==> s.weight == 0.0) && (s.status != NotApplicable ==> s.weight == weight)
  }

  /** The harness lost the reading of this target part: its build, or the overlap of a part that built. */
  predicate ReadingLost(p: string, builds: Builds, references: set<string>) {
    p in references && p in builds
      && (builds[p].HarnessError? || (builds[p].Built? && builds[p].overlap.KernelGone?))
  }

  lemma {:induction false} AnyUnreadIff(parts: seq<string>, builds: Builds, references: set<string>)
    ensures AnyUnread(parts, builds, references) <==> exists p :: p in parts && ReadingLost(p, builds, references)
  {
    if parts != [] {
      var n := |parts| - 1;
      assert parts == parts[..n] + [parts[n]];
      AnyUnreadIff(parts[..n], builds, references);
      assert Unread(parts[n], builds, references) <==> ReadingLost(parts[n], builds, references);
      if ReadingLost(parts[n], builds, references) {
        assert parts[n] in parts;
      }
    }
  }

  lemma BuiltLeftOutIff(builds: Builds, targets: nat, weight: real)
    ensures LeftOutBy(BuiltRow(builds, targets, weight), weight, exists p :: p in builds && builds[p].HarnessError?)
    ensures LeftOutBy(ValidRow(builds, targets, weight), weight, exists p :: p in builds && builds[p].HarnessError?)
  {
  }

  /** Without a target part nothing was built. */
  lemma NothingToBuild(builds: Builds, weight: real)
    requires weight != 0.0 && !exists p :: p in builds && builds[p].HarnessError?
    ensures BuiltRow(builds, 0, weight) == Subscore(0.0, weight, Measured)
    ensures ValidRow(builds, 0, weight) == Subscore(0.0, weight, Measured)
  {
  }

  lemma GeometryLeftOutIff(parts: seq<string>, builds: Builds, references: set<string>, weight: real)
    ensures LeftOutBy(GeometryRow(parts, builds, references, weight), weight,
      (forall p :: p in parts ==> p !in references)
      || exists p :: p in parts && ReadingLost(p, builds, references))
  {
    AnyUnreadIff(parts, builds, references);
  }

  lemma MetricsLeftOutIff(windows: Option<seq<Window>>, builds: Builds, weight: real)
    ensures LeftOutBy(MetricsRow(windows, builds, weight), weight,
      windows in {None, Some([])}
      || exists w :: w in windows.value && w.part in builds && builds[w.part].HarnessError?)
  {
  }

  /** The rubric could not be run, and that is ours: none was shipped, there is no runner, or the run
      broke for the harness's reasons. When nothing of it attached, that is the candidate's. */
  lemma SpecsLeftOutIff(run: SpecRun, partRubrics: bool, projectRubric: bool, injected: seq<string>, weight: real)
    ensures LeftOutBy(SpecsRow(run, partRubrics, projectRubric, injected, weight), weight,
      || (!partRubrics && !projectRubric)
      || ((injected != [] || projectRubric)
          && (run.NoRunner?
              || (run.RunRaised? && run.exc in {KernelError(Timeout), KernelError(Crash), Unexpected}))))
  {
  }

  /** The interference check is left out exactly when it broke for the harness's reasons; an assembly the
      candidate's own tree could not resolve is a measured zero. */
  lemma InterferenceLeftOutIff(check: Sabotage.Check, weight: real)
    ensures var s := Sabotage.InterferenceRow(check, weight);
      && LeftOutBy(s, weight, check.CheckRaised? && check.exc in {KernelError(Timeout), KernelError(Crash), Unexpected})
      && (check.CheckRaised? ==> s.value == 0.0)
      && (check.Checked? && weight != 0.0 ==>
           s.value == Interference.InterferenceFraction(check.instances, check.pairs, check.skipped))
  {
  }

  // ------------------------------------------------------------ geometry

  /** Full marks for geometry mean that every target part has a reference, built, and overlaps it
      completely. */
  lemma GeometryFullMarks(parts: seq<string>, builds: Builds, references: set<string>, weight: real)
    requires weight != 0.0 && IousAreShares(parts, builds, references)
    requires !exists p :: p in parts && ReadingLost(p, builds, references)
    requires exists p :: p in parts && p in references
    ensures GeometryRow(parts, builds, references, weight).value == 1.0 <==>
      forall p :: p in parts ==>
        p in references && p in builds && builds[p].Built? && builds[p].overlap == Iou(1.0)
  {
    AnyUnreadIff(parts, builds, references);
    FullOverlaps(parts, builds, references, weight);
    forall p
      ensures PartIou(p, builds, references) == 1.0 <==>
        p in references && p in builds && builds[p].Built? && builds[p].overlap == Iou(1.0)
    {
    }
  }

  /** Of an overlap that was measured all of it counts, of everything else nothing. */
  lemma PartCounts(p: string, builds: Builds, references: set<string>, v: real)
    ensures p in references && p in builds && builds[p].Built? && builds[p].overlap == Iou(v) ==>
      PartIou(p, builds, references) == v
    ensures PartIou(p, builds, references) != 0.0 ==>
      p in references && p in builds && builds[p].Built? && builds[p].overlap.Iou?
  {
  }

  /** The row is called a mesh only when every target part is one. */
  lemma MeshIff(parts: seq<string>, builds: Builds, references: set<string>, weight: real)
    requires parts != []
    ensures GeometryRow(parts, builds, references, weight).status == SkippedMesh <==>
      weight != 0.0 && forall p :: p in parts ==>
        p in references && p in builds && builds[p].Built? && builds[p].overlap.Mesh?
  {
    AnyUnreadIff(parts, builds, references);
    assert parts[0] in parts;
  }

  // ------------------------------------------------------------ metric windows

  /** The metric names of the extents and of the centre of mass, axis by axis. */
  const EXTENTS := ["bbox_x_mm", "bbox_y_mm", "bbox_z_mm"]
  const CENTRES := ["com_x_mm", "com_y_mm", "com_z_mm"]

  lemma KeysDiffer(j: nat, k: nat)
    requires j < 3 && k < 3
    ensures EXTENTS[j] == EXTENTS[k] <==> j == k
    ensures CENTRES[j] == CENTRES[k] <==> j == k
    ensures CENTRES[j] != EXTENTS[k]
  {
    assert forall i :: 0 <= i < 3 ==> EXTENTS[i][5] == ['x', 'y', 'z'][i] && |EXTENTS[i]| == 9;
    assert forall i :: 0 <= i < 3 ==> CENTRES[i][4] == ['x', 'y', 'z'][i] && |CENTRES[i]| == 8;
  }

  /** Along every axis an extent is upper less lower bound. */
  lemma MetricOfExtent(m: Metrics, k: nat)
    requires k < 3
    ensures MetricOf(m, EXTENTS[k])
      == if k < |m.bboxMin| && k < |m.bboxMax| then Some(m.bboxMax[k] - m.bboxMin[k]) else None
  {
    KeysDiffer(0, k);
    KeysDiffer(1, k);
    KeysDiffer(2, k);
  }

  /** And a centre is the entry of that axis; missing entries are no measurement. */
  lemma MetricOfCentre(m: Metrics, k: nat)
    requires k < 3
    ensures MetricOf(m, CENTRES[k]) == if k < |m.com| then Some(m.com[k]) else None
  {
    KeysDiffer(0, k);
    KeysDiffer(1, k);
    KeysDiffer(2, k);
    KeysDiffer(k, 0);
    KeysDiffer(k, 1);
    KeysDiffer(k, 2);
  }

  /** Any other name is looked up among the plain numbers. */
  lemma MetricOfNumber(m: Metrics, key: string)
    requires key !in EXTENTS && key !in CENTRES
    ensures MetricOf(m, key) == if key in m.numbers && m.numbers[key].Finite? then Some(m.numbers[key].value) else None
  {
    assert EXTENTS[0] in EXTENTS && EXTENTS[1] in EXTENTS && EXTENTS[2] in EXTENTS;
    assert CENTRES[0] in CENTRES && CENTRES[1] in CENTRES && CENTRES[2] in CENTRES;
  }

  /** The measured value is inside the window, give or take a billionth of the bound, at least a
      billionth. */
  predicate Inside(w: Window, v: real) {
    && (w.min.Some? ==> v + Max(0.000000001, 0.000000001 * Abs(w.min.value)) >= w.min.value)
    && (w.max.Some? ==> v - Max(0.000000001, 0.000000001 * Abs(w.max.value)) <= w.max.value)
  }

  /** The window's part built, its metric was measured, and the value is inside. */
  predicate Met(w: Window, builds: Builds) {
    && w.part in builds && builds[w.part].Built?
    && var v := MetricOf(builds[w.part].metrics, w.metric); v.Some? && Inside(w, v.value)
  }

  lemma PassesIff(w: Window, builds: Builds)
    ensures Passes(w, builds) <==> Met(w, builds)
  {
  }

  ghost function MetWindows(windows: seq<Window>, builds: Builds, n: nat): set<nat>
    requires n <= |windows|
  {
    set i: nat | i < n && Met(windows[i], builds)
  }

  lemma {:induction false} PassedMet(windows: seq<Window>, builds: Builds, n: nat)
    requires n <= |windows|
    ensures Passed(windows[..n], builds) == |MetWindows(windows, builds, n)|
  {
    if n > 0 {
      PassedMet(windows, builds, n - 1);
      PassesIff(windows[n - 1], builds);
      assert windows[..n][..n - 1] == windows[..n - 1];
      OneMoreMet(windows, builds, n);
    }
  }

  lemma OneMoreMet(windows: seq<Window>, builds: Builds, n: nat)
    requires 0 < n <= |windows|
    ensures |MetWindows(windows, builds, n)|
      == |MetWindows(windows, builds, n - 1)| + OneIf(Met(windows[n - 1], builds))
  {
    var few := MetWindows(windows, builds, n - 1);
    assert MetWindows(windows, builds, n) == if Met(windows[n - 1], builds) then few + {n - 1} else few;
  }

  /** The row is the share of windows met. */
  lemma MetricsMean(windows: seq<Window>, builds: Builds, weight: real)
    requires weight != 0.0 && windows != []
    requires !exists w :: w in windows && w.part in builds && builds[w.part].HarnessError?
    ensures MetricsRow(Some(windows), builds, weight)
      == Subscore(|MetWindows(windows, builds, |windows|)| as real / |windows| as real, weight, Measured)
  {
    PassedMet(windows, builds, |windows|);
    assert windows[..|windows|] == windows;
    ShareInUnit(Passed(windows, builds), |windows|);
  }

  lemma {:induction false} AllPassed(windows: seq<Window>, builds: Builds)
    ensures Passed(windows, builds) == |windows| <==> forall w :: w in windows ==> Met(w, builds)
  {
    if windows != [] {
      var n := |windows| - 1;
      assert windows == windows[..n] + [windows[n]];
      AllPassed(windows[..n], builds);
      PassesIff(windows[n], builds);
    }
  }

  /** Full marks for metrics mean that every window is met. */
  lemma MetricsFullMarks(windows: seq<Window>, builds: Builds, weight: real)
    requires weight != 0.0 && windows != []
    requires !exists w :: w in windows && w.part in builds && builds[w.part].HarnessError?
    ensures MetricsRow(Some(windows), builds, weight).value == 1.0 <==> forall w :: w in windows ==> Met(w, builds)
  {
    AllPassed(windows, builds);
    ShareInUnit(Passed(windows, builds), |windows|);
    WholeShare(Passed(windows, builds), |windows|);
  }

  // ------------------------------------------------------------ the spec rows

  /** A check of the rubric: declared by a part it was injected into, or by the project's own rubric. */
  predicate Declared(report: Report, injected: seq<string>, projectRubric: bool, id: string) {
    || (exists p :: p in injected && p in report.parts && id in report.parts[p])
    || (projectRubric && id in report.project)
  }

  lemma {:induction false} OwnedByPartsIff(report: Report, injected: seq<string>, id: string)
    ensures id in OwnedByParts(report, injected) <==>
      exists p :: p in injected && p in report.parts && id in report.parts[p]
  {
    if injected != [] {
      var n := |injected| - 1;
      assert injected == injected[..n] + [injected[n]];
      OwnedByPartsIff(report, injected[..n], id);
    }
  }

  /** A check that did not pass but stays in the denominator: it failed, broke, or the candidate made it
      unmeasurable. */
  predicate HeldAgainst(row: SpecRow) {
    row.status == Fail || row.status == Error || (row.status == Skip && row.reason in {"mesh_only", "no_instances"})
  }

  ghost function Passing(rows: seq<SpecRow>, owned: set<string>, n: nat): set<nat>
    requires n <= |rows|
  {
    set i: nat | i < n && rows[i].id in owned && rows[i].status == Pass
  }

  ghost function Held(rows: seq<SpecRow>, owned: set<string>, n: nat): set<nat>
    requires n <= |rows|
  {
    set i: nat | i < n && rows[i].id in owned && HeldAgainst(rows[i])
  }

  ghost function KeptPasses(rows: seq<SpecRow>, owned: set<string>, n: nat): nat
    requires n <= |rows|
  {
    PassCount(Keep(rows[..n], owned))
  }

  ghost function KeptCounted(rows: seq<SpecRow>, owned: set<string>, n: nat): nat
    requires n <= |rows|
  {
    Counted(Keep(rows[..n], owned))
  }

  lemma {:induction false} CountsAre(rows: seq<SpecRow>, owned: set<string>, n: nat)
    requires n <= |rows|
    ensures KeptPasses(rows, owned, n) == |Passing(rows, owned, n)|
    ensures KeptCounted(rows, owned, n) == |Passing(rows, owned, n)| + |Held(rows, owned, n)|
  {
    if n > 0 {
      CountsAre(rows, owned, n - 1);
      KeepOneMore(rows, owned, n);
      OneMore(rows, owned, n);
    } else {
      NoneYet(rows, owned);
    }
  }

  lemma NoneYet(rows: seq<SpecRow>, owned: set<string>)
    ensures KeptPasses(rows, owned, 0) == KeptCounted(rows, owned, 0) == 0
    ensures Passing(rows, owned, 0) == {} && Held(rows, owned, 0) == {}
  {
  }

  lemma KeepNext(front: seq<SpecRow>, row: SpecRow, owned: set<string>)
    ensures Keep(front + [row], owned) == Keep(front, owned) + if row.id in owned then [row] else []
  {
    assert (front + [row])[..|front|] == front;
  }

  lemma KeepOneMore(rows: seq<SpecRow>, owned: set<string>, n: nat)
    requires 0 < n <= |rows|
    ensures var row := rows[n - 1];
      && KeptPasses(rows, owned, n) == KeptPasses(rows, owned, n - 1) + OneIf(row.id in owned && row.status == Pass)
      && KeptCounted(rows, owned, n)
         == KeptCounted(rows, owned, n - 1) + OneIf(row.id in owned && (row.status == Pass || HeldAgainst(row)))
  {
    var (front, row) := (rows[..n - 1], rows[n - 1]);
    assert rows[..n] == front + [row];
    KeepNext(front, row, owned);
    CountsOfNext(Keep(front, owned), row);
    CountsIff(row);
  }

  lemma CountsIff(row: SpecRow)
    ensures CountsAsPass(row) <==> row.status == Pass
    ensures Counts(row) <==> row.status == Pass || HeldAgainst(row)
  {
  }

  lemma OneMore(rows: seq<SpecRow>, owned: set<string>, n: nat)
    requires 0 < n <= |rows|
    ensures var row := rows[n - 1];
      && |Passing(rows, owned, n)|
         == |Passing(rows, owned, n - 1)| + OneIf(row.id in owned && row.status == Pass)
      && |Held(rows, owned, n)| == |Held(rows, owned, n - 1)| + OneIf(row.id in owned && HeldAgainst(row))
  {
    var (passing, held) := (Passing(rows, owned, n - 1), Held(rows, owned, n - 1));
    assert Passing(rows, owned, n)
      == if rows[n - 1].id in owned && rows[n - 1].status == Pass then passing + {n - 1} else passing;
    assert Held(rows, owned, n)
      == if rows[n - 1].id in owned && HeldAgainst(rows[n - 1]) then held + {n - 1} else held;
  }

  lemma OwnedIff(report: Report, injected: seq<string>, projectRubric: bool, id: string)
    ensures id in Owned(report, injected, projectRubric) <==> Declared(report, injected, projectRubric, id)
  {
    OwnedByPartsIff(report, injected, id);
  }

  lemma ShareOfKept(rows: seq<SpecRow>, owned: set<string>)
    ensures var (a, b) := (|Passing(rows, owned, |rows|)|, |Held(rows, owned, |rows|)|);
      SpecValue(Keep(rows, owned)) == if a + b == 0 then 0.0 else a as real / (a + b) as real
  {
    CountsAre(rows, owned, |rows|);
    assert rows[..|rows|] == rows;
  }

  /** The value of the spec row: of the checks of the rubric that passed or are held against the
      candidate, the share that passed; zero when there are none. */
  lemma SpecsMean(report: Report, injected: seq<string>, projectRubric: bool, owned: set<string>)
    requires forall id :: id in owned <==> Declared(report, injected, projectRubric, id)
    ensures var (a, b) := (|Passing(report.checks, owned, |report.checks|)|,
                           |Held(report.checks, owned, |report.checks|)|);
      SpecValue(OwnedRows(report, injected, projectRubric)) == if a + b == 0 then 0.0 else a as real / (a + b) as real
  {
    forall id
      ensures id in owned <==> id in Owned(report, injected, projectRubric)
    {
      OwnedIff(report, injected, projectRubric, id);
    }
    assert owned == Owned(report, injected, projectRubric);
    ShareOfKept(report.checks, owned);
  }

  /** And that value is the row's whenever a run over an attached rubric came back; a rubric that
      attached nowhere, or a run the candidate's own tree refused, is a measured zero. */
  lemma SpecsRowIs(run: SpecRun, partRubrics: bool, projectRubric: bool, injected: seq<string>, weight: real)
    requires weight != 0.0 && (partRubrics || projectRubric)
    ensures run.Ran? && (injected != [] || projectRubric) ==>
      SpecsRow(run, partRubrics, projectRubric, injected, weight)
      == Subscore(SpecValue(OwnedRows(run.report, injected, projectRubric)), weight, Measured)
    ensures !run.Ran? || (injected == [] && !projectRubric) ==>
      SpecsRow(run, partRubrics, projectRubric, injected, weight).value == 0.0
  {
  }

  // ------------------------------------------------------------ the total of the six

  function Sum(w: seq<real>): real {
    if w == [] then 0.0 else Sum(w[..|w| - 1]) + w[|w| - 1]
  }

  /** Each value by its own weight. */
  function Dot(v: seq<real>, w: seq<real>): real
    requires |v| == |w|
  {
    if w == [] then 0.0 else Dot(v[..|v| - 1], w[..|w| - 1]) + v[|v| - 1] * w[|w| - 1]
  }

  /** Rows that are all in the total, as their values and their weights. */
  predicate RowsAre(rows: seq<Subscore>, v: seq<real>, w: seq<real>) {
    |rows| == |v| == |w| && forall i :: 0 <= i < |rows| ==>
      Included(rows[i]) && rows[i].value == v[i] && rows[i].weight == w[i]
  }

  lemma {:induction false} SumsOfRows(rows: seq<Subscore>, v: seq<real>, w: seq<real>)
    requires RowsAre(rows, v, w)
    ensures IncludedWeight(rows) == Sum(w) && Mass(rows) == Dot(v, w)
  {
    if rows != [] {
      var n := |rows| - 1;
      SumsOfRows(rows[..n], v[..n], w[..n]);
    }
  }

  /** Their total is the mean of the values, each counted by its own weight. */
  lemma TotalOfRows(rows: seq<Subscore>, v: seq<real>, w: seq<real>)
    requires RowsAre(rows, v, w) && Sum(w) > 0.0
    ensures Total(rows) == Dot(v, w) / Sum(w)
  {
    SumsOfRows(rows, v, w);
    TotalIsMean(rows);
  }

  /** Everything the task weighs could be measured. */
  predicate AllMeasured(task: Task, builds: Builds, specs: Subscore, interference: Subscore) {
    var w := task.weights;
    && w.built > 0.0 && w.valid > 0.0 && w.specs > 0.0 && w.geometry > 0.0 && w.interference > 0.0 && w.metrics > 0.0
    && specs.status == Measured && specs.weight == w.specs
    && interference.status == Measured && interference.weight == w.interference
    && |builds.Keys| == |task.targets| > 0 && !Broken(builds)
    && (exists p :: p in task.targets && p in task.references) && !AnyUnread(task.targets, builds, task.references)
    && task.windows.Some? && task.windows.value != []
    && !exists p :: p in builds && builds[p].HarnessError?
  }

  function GeometryMean(task: Task, builds: Builds): real
    requires task.targets != []
  {
    Max(0.0, Min(1.0, IouSum(task.targets, builds, task.references) / |task.targets| as real))
  }

  lemma GeometryRowIs(task: Task, builds: Builds, specs: Subscore, interference: Subscore)
    requires AllMeasured(task, builds, specs, interference)
    ensures var s := GeometryRow(task.targets, builds, task.references, task.weights.geometry);
      Included(s) && s.value == GeometryMean(task, builds) && s.weight == task.weights.geometry
  {
  }

  lemma PartsRowsAre(task: Task, builds: Builds, specs: Subscore, interference: Subscore)
    requires AllMeasured(task, builds, specs, interference)
    ensures var (w, n) := (task.weights, |task.targets|);
      && BuiltRow(builds, n, w.built) == Subscore(|BuiltParts(builds)| as real / n as real, w.built, Measured)
      && ValidRow(builds, n, w.valid) == Subscore(|ValidParts(builds)| as real / n as real, w.valid, Measured)
      && var windows := task.windows.value;
         MetricsRow(task.windows, builds, w.metrics)
         == Subscore(|MetWindows(windows, builds, |windows|)| as real / |windows| as real, w.metrics, Measured)
  {
    BuiltAndValidMean(builds, task.weights.built);
    BuiltAndValidMean(builds, task.weights.valid);
    MetricsMean(task.windows.value, builds, task.weights.metrics);
  }

  function WeightList(w: Weights): seq<real> {
    [w.built, w.valid, w.specs, w.geometry, w.interference, w.metrics]
  }

  /** What the six rows of such a submission read: the share of parts built, the share of valid ones, the
      rubric, the mean overlap, the clean pairs and the share of windows met. */
  ghost function Readings(task: Task, builds: Builds, specs: Subscore, interference: Subscore): seq<real>
    requires task.targets != [] && task.windows.Some? && task.windows.value != []
  {
    var (n, windows) := (|task.targets| as real, task.windows.value);
    [|BuiltParts(builds)| as real / n, |ValidParts(builds)| as real / n, specs.value, GeometryMean(task, builds),
     interference.value, |MetWindows(windows, builds, |windows|)| as real / |windows| as real]
  }

  /** The total is their mean, each counted by the weight the task gives it. */
  lemma TotalOfAll(task: Task, builds: Builds, specs: Subscore, interference: Subscore)
    requires AllMeasured(task, builds, specs, interference)
    ensures Sum(WeightList(task.weights)) > 0.0
    ensures Total(Rows(task, builds, specs, interference))
      == Dot(Readings(task, builds, specs, interference), WeightList(task.weights)) / Sum(WeightList(task.weights))
  {
    var rows := Rows(task, builds, specs, interference);
    RowsReadSo(task, builds, specs, interference);
    SumOfWeights(task.weights);
    TotalOfRows(rows, Readings(task, builds, specs, interference), WeightList(task.weights));
  }

  lemma SumOfNext(front: seq<real>, x: real)
    ensures Sum(front + [x]) == Sum(front) + x
  {
    assert (front + [x])[..|front|] == front;
  }

  lemma SumOfWeights(w: Weights)
    ensures Sum(WeightList(w)) == w.built + w.valid + w.specs + w.geometry + w.interference + w.metrics
  {
    SumOfNext([], w.built);
    SumOfNext([w.built], w.valid);
    SumOfNext([w.built, w.valid], w.specs);
    SumOfNext([w.built, w.valid, w.specs], w.geometry);
    SumOfNext([w.built, w.valid, w.specs, w.geometry], w.interference);
    SumOfNext([w.built, w.valid, w.specs, w.geometry, w.interference], w.metrics);
    assert [] + [w.built] == [w.built] && [w.built] + [w.valid] == [w.built, w.valid];
    assert [w.built, w.valid] + [w.specs] == [w.built, w.valid, w.specs];
    assert [w.built, w.valid, w.specs] + [w.geometry] == [w.built, w.valid, w.specs, w.geometry];
    assert [w.built, w.valid, w.specs, w.geometry] + [w.interference]
      == [w.built, w.valid, w.specs, w.geometry, w.interference];
    assert [w.built, w.valid, w.specs, w.geometry, w.interference] + [w.metrics] == WeightList(w);
  }

  lemma RowsReadSo(task: Task, builds: Builds, specs: Subscore, interference: Subscore)
    requires AllMeasured(task, builds, specs, interference)
    ensures RowsAre(Rows(task, builds, specs, interference), Readings(task, builds, specs, interference),
                    WeightList(task.weights))
  {
    PartsRowsAre(task, builds, specs, interference);
    GeometryRowIs(task, builds, specs, interference);
    var (rows, v, w) := (Rows(task, builds, specs, interference), Readings(task, builds, specs, interference),
                         WeightList(task.weights));
    forall i | 0 <= i < 6
      ensures Included(rows[i]) && rows[i].value == v[i] && rows[i].weight == w[i]
    {
      if i == 0 || i == 1 || i == 2 {
      } else {
        assert i == 3 || i == 4 || i == 5;
      }
    }
  }
}
