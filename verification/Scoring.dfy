/** The bench scorer's arithmetic: the renormalised total, the build classification, the subscores
    that read builds, and the spec rows the rubric owns. */
module Scoring {
  import opened Arith
  import opened Options

  // ------------------------------------------------------------ the total

  datatype Status = Measured | SkippedMesh | Excluded | NotApplicable
  datatype Subscore = Subscore(value: real, weight: real, status: Status)

  function Rated(value: real, weight: real, status: Status): (s: Subscore)
    ensures 0.0 <= s.value <= 1.0 && s.weight == weight && s.status == status
  {
    Subscore(Max(0.0, Min(1.0, value)), weight, status)
  }

  const NOT_SCORED := Subscore(0.0, 0.0, NotApplicable)

  predicate Included(s: Subscore) {
    s.status != Excluded && s.status != NotApplicable
  }

  predicate WellFormed(rows: seq<Subscore>) {
    forall s :: s in rows ==> 0.0 <= s.value <= 1.0 && s.weight >= 0.0
  }

  function IncludedWeight(rows: seq<Subscore>): (w: real)
    ensures WellFormed(rows) ==> w >= 0.0
  {
    if rows == [] then 0.0
    else
      var n := |rows| - 1;
      IncludedWeight(rows[..n]) + if Included(rows[n]) then rows[n].weight else 0.0
  }

  function EffectiveOf(s: Subscore, whole: real): Option<real>
    requires whole > 0.0
  {
    if Included(s) then Some(s.weight / whole) else None
  }

  /** The published weights; a row that is left out has none. */
  function Effective(rows: seq<Subscore>, whole: real): (e: seq<Option<real>>)
    requires whole > 0.0
    ensures |e| == |rows|
  {
    if rows == [] then []
    else
      var n := |rows| - 1;
      Effective(rows[..n], whole) + [EffectiveOf(rows[n], whole)]
  }

  function SumOf(e: seq<Option<real>>): real {
    if e == [] then 0.0
    else SumOf(e[..|e| - 1]) + match e[|e| - 1] { case None => 0.0 case Some(w) => w }
  }

  function Contribution(s: Subscore, whole: real): real
    requires whole > 0.0
  {
    if Included(s) then s.value * (s.weight / whole) else 0.0
  }

  /** The sum of value times effective weight. */
  function Weighted(rows: seq<Subscore>, whole: real): real
    requires whole > 0.0
  {
    if rows == [] then 0.0
    else
      var n := |rows| - 1;
      Weighted(rows[..n], whole) + Contribution(rows[n], whole)
  }

  function Total(rows: seq<Subscore>): real {
    var whole := IncludedWeight(rows);
    if whole <= 0.0 then 0.0 else Weighted(rows, whole)
  }

  lemma NextWeight(front: seq<Subscore>, s: Subscore)
    ensures IncludedWeight(front + [s]) == IncludedWeight(front) + if Included(s) then s.weight else 0.0
  {
    assert (front + [s])[..|front|] == front;
  }

  method SumWeights(rows: seq<Subscore>) returns (whole: real)
    ensures whole == IncludedWeight(rows)
  {
    whole := 0.0;
    for i := 0 to |rows|
      invariant whole == IncludedWeight(rows[..i])
    {
      assert rows[..i + 1] == rows[..i] + [rows[i]];
      NextWeight(rows[..i], rows[i]);
      if Included(rows[i]) {
        whole := whole + rows[i].weight;
      }
    }
    assert rows[..|rows|] == rows;
  }

  lemma NextContribution(front: seq<Subscore>, s: Subscore, whole: real)
    requires whole > 0.0
    ensures Weighted(front + [s], whole) == Weighted(front, whole) + Contribution(s, whole)
    ensures Effective(front + [s], whole) == Effective(front, whole) + [EffectiveOf(s, whole)]
  {
    assert (front + [s])[..|front|] == front;
  }

  method AddUp(rows: seq<Subscore>, whole: real) returns (total: real, effective: seq<Option<real>>)
    requires whole > 0.0
    ensures total == Weighted(rows, whole) && effective == Effective(rows, whole)
  {
    total, effective := 0.0, [];
    for i := 0 to |rows|
      invariant total == Weighted(rows[..i], whole) && effective == Effective(rows[..i], whole)
    {
      assert rows[..i + 1] == rows[..i] + [rows[i]];
      NextContribution(rows[..i], rows[i], whole);
      var share := EffectiveOf(rows[i], whole);
      effective := effective + [share];
      if share.Some? {
        total := total + rows[i].value * share.value;
      }
    }
    assert rows[..|rows|] == rows;
  }

  method TotalOf(rows: seq<Subscore>) returns (total: real, effective: seq<Option<real>>)
    ensures total == Total(rows)
    ensures effective == if IncludedWeight(rows) <= 0.0 then [] else Effective(rows, IncludedWeight(rows))
  {
    var whole := SumWeights(rows);
    if whole <= 0.0 {
      return 0.0, [];
    }
    total, effective := AddUp(rows, whole);
  }

  lemma AddQuotients(a: real, b: real, whole: real)
    requires whole > 0.0
    ensures a / whole + b / whole == (a + b) / whole
  {
  }

  lemma {:induction false} EffectiveSum(rows: seq<Subscore>, whole: real)
    requires whole > 0.0
    ensures SumOf(Effective(rows, whole)) == IncludedWeight(rows) / whole
  {
    if rows != [] {
      var n := |rows| - 1;
      EffectiveSum(rows[..n], whole);
      SumOfNext(rows, whole);
      if Included(rows[n]) {
        AddQuotients(IncludedWeight(rows[..n]), rows[n].weight, whole);
      }
    }
  }

  lemma ProductWithin(v: real, w: real)
    requires 0.0 <= v <= 1.0 && w >= 0.0
    ensures 0.0 <= v * w <= w
  {
  }

  function EffectiveWeight(s: Subscore, whole: real): real
    requires whole > 0.0
  {
    if Included(s) then s.weight / whole else 0.0
  }

  lemma ContributionWithin(s: Subscore, whole: real)
    requires 0.0 <= s.value <= 1.0 && s.weight >= 0.0 && whole > 0.0
    ensures 0.0 <= Contribution(s, whole) <= EffectiveWeight(s, whole)
  {
    QuotientNotNegative(s.weight, whole);
    ProductWithin(s.value, s.weight / whole);
  }

  lemma SumOfNext(rows: seq<Subscore>, whole: real)
    requires rows != [] && whole > 0.0
    ensures SumOf(Effective(rows, whole))
      == SumOf(Effective(rows[..|rows| - 1], whole)) + EffectiveWeight(rows[|rows| - 1], whole)
  {
    assert Effective(rows, whole)[..|rows| - 1] == Effective(rows[..|rows| - 1], whole);
  }

  lemma {:induction false} WeightedWithin(rows: seq<Subscore>, whole: real)
    requires WellFormed(rows) && whole > 0.0
    ensures 0.0 <= Weighted(rows, whole) <= SumOf(Effective(rows, whole))
  {
    if rows != [] {
      var n := |rows| - 1;
      assert rows[n] in rows;
      WeightedWithin(rows[..n], whole);
      SumOfNext(rows, whole);
      ContributionWithin(rows[n], whole);
    }
  }

  lemma QuotientOfItself(a: real)
    requires a > 0.0
    ensures a / a == 1.0
  {
  }

  /** The effective weights sum to one and the total lies between zero and one; nothing included
      means a total of zero. */
  lemma TotalInUnit(rows: seq<Subscore>)
    requires WellFormed(rows)
    ensures 0.0 <= Total(rows) <= 1.0
    ensures IncludedWeight(rows) > 0.0 ==> SumOf(Effective(rows, IncludedWeight(rows))) == 1.0
    ensures IncludedWeight(rows) == 0.0 ==> Total(rows) == 0.0
  {
    var whole := IncludedWeight(rows);
    if whole > 0.0 {
      EffectiveSum(rows, whole);
      WeightedWithin(rows, whole);
      QuotientOfItself(whole);
    }
  }

  /** The same rows, none with a higher value. */
  predicate NoBetter(worse: seq<Subscore>, rows: seq<Subscore>) {
    |worse| == |rows| && forall i :: 0 <= i < |rows| ==> NoBetterRow(worse[i], rows[i])
  }

  predicate NoBetterRow(worse: Subscore, row: Subscore) {
    worse.weight == row.weight && Included(worse) == Included(row) && worse.value <= row.value
  }

  lemma {:induction false} SameIncludedWeight(worse: seq<Subscore>, rows: seq<Subscore>)
    requires NoBetter(worse, rows)
    ensures IncludedWeight(worse) == IncludedWeight(rows)
  {
    if rows != [] {
      var n := |rows| - 1;
      assert NoBetterRow(worse[n], rows[n]);
      SameIncludedWeight(worse[..n], rows[..n]);
    }
  }

  lemma ContributionMonotone(worse: Subscore, row: Subscore, whole: real)
    requires NoBetterRow(worse, row) && row.weight >= 0.0 && whole > 0.0
    ensures Contribution(worse, whole) <= Contribution(row, whole)
  {
    QuotientNotNegative(row.weight, whole);
    ProductMonotone(worse.value, row.value, row.weight / whole);
  }

  lemma {:induction false} WeightedMonotone(worse: seq<Subscore>, rows: seq<Subscore>, whole: real)
    requires NoBetter(worse, rows) && WellFormed(rows) && whole > 0.0
    ensures Weighted(worse, whole) <= Weighted(rows, whole)
  {
    if rows != [] {
      var n := |rows| - 1;
      assert NoBetterRow(worse[n], rows[n]) && rows[n] in rows;
      WeightedMonotone(worse[..n], rows[..n], whole);
      ContributionMonotone(worse[n], rows[n], whole);
    }
  }

  lemma TotalMonotone(worse: seq<Subscore>, rows: seq<Subscore>)
    requires NoBetter(worse, rows) && WellFormed(rows)
    ensures Total(worse) <= Total(rows)
  {
    SameIncludedWeight(worse, rows);
    if IncludedWeight(rows) > 0.0 {
      WeightedMonotone(worse, rows, IncludedWeight(rows));
    }
  }

  // ------------------------------------------------------------ builds

  datatype Number = Finite(value: real) | NotFinite

  datatype Metrics = Metrics(isValid: bool, bboxMin: seq<real>, bboxMax: seq<real>, com: seq<real>,
                             numbers: map<string, Number>)

  datatype ErrorKind = Timeout | Crash | Script | Contract | Occt

  datatype Exception = KernelError(kind: ErrorKind) | AppError | Unexpected

  /** What measuring the overlap with the reference gave for a part that built. */
  datatype Overlap = Iou(value: real) | NotComparable | Mesh | KernelGone

  /** What building one target part came to. */
  datatype Attempt =
    | Absent
    | Raised(exc: Exception)
    | Refused(kind: ErrorKind)
    | Succeeded(metrics: Metrics, overlap: Overlap)

  datatype Build = Built(metrics: Metrics, overlap: Overlap) | Failed | HarnessError

  predicate BlamesHarness(exc: Exception) {
    match exc
    case KernelError(kind) => kind == Timeout || kind == Crash
    case AppError => false
    case Unexpected => true
  }

  /** A timeout or a crash is the candidate's, unless a budget has already run out. */
  function FailedBuild(kind: ErrorKind, remaining: Option<real>): Build {
    if kind != Timeout && kind != Crash then Failed
    else if remaining.Some? && remaining.value <= 0.0 then HarnessError
    else Failed
  }

  function Classify(attempt: Attempt, remaining: Option<real>): Build {
    match attempt
    case Absent => Failed
    case Raised(exc) => if BlamesHarness(exc) then HarnessError else Failed
    case Refused(kind) => FailedBuild(kind, remaining)
    case Succeeded(metrics, overlap) => Built(metrics, overlap)
  }

  type Builds = map<string, Build>

  /** What was left of the budget when a part had failed to build; no entry when none is in force. */
  type Budget = map<string, real>

  function LeftFor(left: Budget, p: string): Option<real> {
    if p in left then Some(left[p]) else None
  }

  function BuildAll(attempts: map<string, Attempt>, left: Budget): Builds {
    map p | p in attempts :: Classify(attempts[p], LeftFor(left, p))
  }

  function FailedParts(builds: Builds): set<string> {
    set p | p in builds && !builds[p].Built?
  }

  function InvalidParts(builds: Builds): set<string> {
    set p | p in builds && !(builds[p].Built? && builds[p].metrics.isValid)
  }

  predicate Broken(builds: Builds) {
    exists p :: p in builds && builds[p] == HarnessError
  }

  /** One less the share of the target parts that fell out. */
  function Remaining(out: nat, targets: nat): real {
    if targets == 0 then 0.0 else 1.0 - out as real / targets as real
  }

  function BuiltRow(builds: Builds, targets: nat, weight: real): Subscore {
    if weight == 0.0 then NOT_SCORED
    else if Broken(builds) then Rated(0.0, weight, Excluded)
    else Rated(Remaining(|FailedParts(builds)|, targets), weight, Measured)
  }

  function ValidRow(builds: Builds, targets: nat, weight: real): Subscore {
    if weight == 0.0 then NOT_SCORED
    else if Broken(builds) then Rated(0.0, weight, Excluded)
    else Rated(Remaining(|InvalidParts(builds)|, targets), weight, Measured)
  }

  // ------------------------------------------------------------ geometry

  function BuildOf(builds: Builds, p: string): Build {
    if p in builds then builds[p] else Failed
  }

  /** No reading, because the harness failed. */
  predicate Unread(p: string, builds: Builds, references: set<string>) {
    p in references
    && (BuildOf(builds, p) == HarnessError || (BuildOf(builds, p).Built? && BuildOf(builds, p).overlap == KernelGone))
  }

  function PartIou(p: string, builds: Builds, references: set<string>): real {
    if p !in references then 0.0
    else match BuildOf(builds, p)
      case Built(_, Iou(v)) => v
      case _ => 0.0
  }

  predicate IsMesh(p: string, builds: Builds, references: set<string>) {
    p in references && BuildOf(builds, p).Built? && BuildOf(builds, p).overlap == Mesh
  }

  predicate AnyUnread(parts: seq<string>, builds: Builds, references: set<string>) {
    parts != []
      && (AnyUnread(parts[..|parts| - 1], builds, references) || Unread(parts[|parts| - 1], builds, references))
  }

  function IouSum(parts: seq<string>, builds: Builds, references: set<string>): real {
    if parts == [] then 0.0
    else IouSum(parts[..|parts| - 1], builds, references) + PartIou(parts[|parts| - 1], builds, references)
  }

  predicate AllMesh(parts: seq<string>, builds: Builds, references: set<string>) {
    forall p :: p in parts ==> IsMesh(p, builds, references)
  }

  function GeometryRow(parts: seq<string>, builds: Builds, references: set<string>, weight: real): Subscore {
    if weight == 0.0 then NOT_SCORED
    else if forall p :: p in parts ==> p !in references then Rated(0.0, weight, Excluded)
    else if AnyUnread(parts, builds, references) then Rated(0.0, weight, Excluded)
    else
      Rated(IouSum(parts, builds, references) / |parts| as real, weight,
            if AllMesh(parts, builds, references) then SkippedMesh else Measured)
  }

  lemma {:induction false} UnreadSomewhere(parts: seq<string>, i: nat, builds: Builds, references: set<string>)
    requires i < |parts| && Unread(parts[i], builds, references)
    ensures AnyUnread(parts, builds, references)
  {
    if i < |parts| - 1 {
      UnreadSomewhere(parts[..|parts| - 1], i, builds, references);
    }
  }

  method Geometry(parts: seq<string>, builds: Builds, references: set<string>, weight: real) returns (s: Subscore)
    ensures s == GeometryRow(parts, builds, references, weight)
  {
    if weight == 0.0 {
      return NOT_SCORED;
    }
    if forall p :: p in parts ==> p !in references {
      return Rated(0.0, weight, Excluded);
    }
    var sum := 0.0;
    var mesh := 0;
    for i := 0 to |parts|
      invariant sum == IouSum(parts[..i], builds, references) && !AnyUnread(parts[..i], builds, references)
      invariant 0 <= mesh <= i && (mesh == i <==> forall k :: 0 <= k < i ==> IsMesh(parts[k], builds, references))
    {
      assert parts[..i + 1][..i] == parts[..i];
      if Unread(parts[i], builds, references) {
        UnreadSomewhere(parts, i, builds, references);
        return Rated(0.0, weight, Excluded);
      }
      sum := sum + PartIou(parts[i], builds, references);
      if IsMesh(parts[i], builds, references) {
        mesh := mesh + 1;
      }
    }
    assert parts[..|parts|] == parts;
    assert AllMesh(parts, builds, references) <==> mesh == |parts| by {
      assert forall k :: 0 <= k < |parts| ==> parts[k] in parts;
    }
    s := Rated(sum / |parts| as real, weight, if mesh == |parts| then SkippedMesh else Measured);
  }

  // ------------------------------------------------------------ metric windows

  datatype Window = Window(part: string, metric: string, min: Option<real>, max: Option<real>)

  /** A difference of two entries of the bounding box, an entry of the centre of mass, or a plain
      number; what is not there or not finite is no measurement. */
  function MetricOf(m: Metrics, key: string): Option<real> {
    var box := if key == "bbox_x_mm" then 0 else if key == "bbox_y_mm" then 1 else if key == "bbox_z_mm" then 2 else -1;
    var com := if key == "com_x_mm" then 0 else if key == "com_y_mm" then 1 else if key == "com_z_mm" then 2 else -1;
    if box >= 0 then
      if |m.bboxMin| <= box || |m.bboxMax| <= box then None else Some(m.bboxMax[box] - m.bboxMin[box])
    else if com >= 0 then
      if |m.com| <= com then None else Some(m.com[com])
    else if key in m.numbers && m.numbers[key].Finite? then Some(m.numbers[key].value)
    else None
  }

  predicate WindowSatisfied(w: Window, measured: Option<real>) {
    && measured.Some?
    && (w.min.Some? ==> measured.value >= w.min.value - Slack(w.min.value))
    && (w.max.Some? ==> measured.value <= w.max.value + Slack(w.max.value))
  }

  predicate Passes(w: Window, builds: Builds) {
    BuildOf(builds, w.part).Built? && WindowSatisfied(w, MetricOf(BuildOf(builds, w.part).metrics, w.metric))
  }

  function Passed(windows: seq<Window>, builds: Builds): (n: nat)
    ensures n <= |windows|
  {
    if windows == [] then 0
    else Passed(windows[..|windows| - 1], builds) + if Passes(windows[|windows| - 1], builds) then 1 else 0
  }

  predicate WindowBroken(windows: seq<Window>, builds: Builds) {
    exists w :: w in windows && BuildOf(builds, w.part) == HarnessError
  }

  /** `windows` is missing when the task's document is, or cannot be read. */
  function MetricsRow(windows: Option<seq<Window>>, builds: Builds, weight: real): Subscore {
    if weight == 0.0 then NOT_SCORED
    else if windows.None? || windows.value == [] then Rated(0.0, weight, Excluded)
    else if WindowBroken(windows.value, builds) then Rated(0.0, weight, Excluded)
    else Rated(Passed(windows.value, builds) as real / |windows.value| as real, weight, Measured)
  }

  method MetricsScore(windows: Option<seq<Window>>, builds: Builds, weight: real) returns (s: Subscore)
    ensures s == MetricsRow(windows, builds, weight)
  {
    if weight == 0.0 {
      return NOT_SCORED;
    }
    if windows.None? || windows.value == [] {
      return Rated(0.0, weight, Excluded);
    }
    if exists w :: w in windows.value && BuildOf(builds, w.part) == HarnessError {
      return Rated(0.0, weight, Excluded);
    }
    var passed := 0;
    for i := 0 to |windows.value|
      invariant passed == Passed(windows.value[..i], builds)
    {
      assert windows.value[..i + 1][..i] == windows.value[..i];
      if Passes(windows.value[i], builds) {
        passed := passed + 1;
      }
    }
    assert windows.value[..|windows.value|] == windows.value;
    s := Rated(passed as real / |windows.value| as real, weight, Measured);
  }

  // ------------------------------------------------------------ destroying a part never pays

  datatype Weights = Weights(built: real, valid: real, specs: real, geometry: real, interference: real, metrics: real)

  /** `partRubrics` says whether the task ships a rubric for some part, `projectRubric` for the project. */
  datatype Task = Task(targets: seq<string>, weights: Weights, references: set<string>, windows: Option<seq<Window>>,
                       partRubrics: bool, projectRubric: bool)

  /** The six rows in report order; the two that do not read builds come in from outside. */
  function Rows(task: Task, builds: Builds, specs: Subscore, interference: Subscore): seq<Subscore> {
    var w, n := task.weights, |task.targets|;
    [BuiltRow(builds, n, w.built), ValidRow(builds, n, w.valid), specs,
     GeometryRow(task.targets, builds, task.references, w.geometry), interference,
     MetricsRow(task.windows, builds, w.metrics)]
  }

  /** The part did not fail by our fault, and an overlap measured is not negative. */
  predicate OnItsOwn(b: Build) {
    b != HarnessError && (b.Built? ==> b.overlap != KernelGone && (b.overlap.Iou? ==> b.overlap.value >= 0.0))
  }

  /** The same builds with one part turned into a failed one. */
  function Destroyed(builds: Builds, p: string): Builds
    requires p in builds
  {
    builds[p := Failed]
  }

  lemma RemainingMonotone(more: nat, less: nat, targets: nat)
    requires less <= more
    ensures Remaining(more, targets) <= Remaining(less, targets)
  {
    if targets > 0 {
      QuotientMonotone(less as real, more as real, targets as real);
    }
  }

  lemma SameBroken(builds: Builds, p: string)
    requires p in builds && OnItsOwn(builds[p])
    ensures Broken(Destroyed(builds, p)) == Broken(builds)
  {
    var d := Destroyed(builds, p);
    assert forall q :: q in builds && builds[q] == HarnessError ==> q in d && d[q] == HarnessError;
  }

  lemma DestroyedBuilt(builds: Builds, p: string, targets: nat, weight: real)
    requires p in builds && OnItsOwn(builds[p])
    ensures NoBetterRow(BuiltRow(Destroyed(builds, p), targets, weight), BuiltRow(builds, targets, weight))
  {
    var d := Destroyed(builds, p);
    SameBroken(builds, p);
    assert FailedParts(builds) <= FailedParts(d);
    SubsetSmaller(FailedParts(builds), FailedParts(d));
    RemainingMonotone(|FailedParts(d)|, |FailedParts(builds)|, targets);
  }

  lemma DestroyedValid(builds: Builds, p: string, targets: nat, weight: real)
    requires p in builds && OnItsOwn(builds[p])
    ensures NoBetterRow(ValidRow(Destroyed(builds, p), targets, weight), ValidRow(builds, targets, weight))
  {
    var d := Destroyed(builds, p);
    SameBroken(builds, p);
    assert InvalidParts(builds) <= InvalidParts(d);
    SubsetSmaller(InvalidParts(builds), InvalidParts(d));
    RemainingMonotone(|InvalidParts(d)|, |InvalidParts(builds)|, targets);
  }

  lemma {:induction false} SameUnread(parts: seq<string>, builds: Builds, references: set<string>, p: string)
    requires p in builds && OnItsOwn(builds[p])
    ensures AnyUnread(parts, Destroyed(builds, p), references) == AnyUnread(parts, builds, references)
  {
    if parts != [] {
      SameUnread(parts[..|parts| - 1], builds, references, p);
    }
  }

  lemma {:induction false} IouSumFalls(parts: seq<string>, builds: Builds, references: set<string>, p: string)
    requires p in builds && OnItsOwn(builds[p])
    ensures IouSum(parts, Destroyed(builds, p), references) <= IouSum(parts, builds, references)
  {
    if parts != [] {
      IouSumFalls(parts[..|parts| - 1], builds, references, p);
    }
  }

  lemma DestroyedGeometry(parts: seq<string>, builds: Builds, references: set<string>, p: string, weight: real)
    requires p in builds && OnItsOwn(builds[p])
    ensures NoBetterRow(GeometryRow(parts, Destroyed(builds, p), references, weight),
                        GeometryRow(parts, builds, references, weight))
  {
    SameUnread(parts, builds, references, p);
    IouSumFalls(parts, builds, references, p);
    if |parts| > 0 {
      QuotientMonotone(IouSum(parts, Destroyed(builds, p), references), IouSum(parts, builds, references),
                       |parts| as real);
    }
  }

  lemma {:induction false} PassedFalls(windows: seq<Window>, builds: Builds, p: string)
    requires p in builds
    ensures Passed(windows, Destroyed(builds, p)) <= Passed(windows, builds)
  {
    if windows != [] {
      PassedFalls(windows[..|windows| - 1], builds, p);
    }
  }

  lemma DestroyedMetrics(windows: Option<seq<Window>>, builds: Builds, p: string, weight: real)
    requires p in builds && OnItsOwn(builds[p])
    ensures NoBetterRow(MetricsRow(windows, Destroyed(builds, p), weight), MetricsRow(windows, builds, weight))
  {
    if windows.Some? && windows.value != [] {
      PassedFalls(windows.value, builds, p);
      QuotientMonotone(Passed(windows.value, Destroyed(builds, p)) as real, Passed(windows.value, builds) as real,
                       |windows.value| as real);
    }
  }

  // ------------------------------------------------------------ what the four rows mean

  function BuiltParts(builds: Builds): set<string> {
    set p | p in builds && builds[p].Built?
  }

  function ValidParts(builds: Builds): set<string> {
    set p | p in builds && builds[p].Built? && builds[p].metrics.isValid
  }

  lemma RestOf(all: set<string>, out: set<string>, left: set<string>)
    requires all == out + left && out !! left && |all| > 0
    ensures Remaining(|out|, |all|) == |left| as real / |all| as real
    ensures 0.0 <= Remaining(|out|, |all|) <= 1.0
  {
    ShareInUnit(|left|, |all|);
    WholeLess(|out| as real, |left| as real, |all| as real);
  }

  lemma WholeLess(a: real, b: real, whole: real)
    requires a + b == whole && whole > 0.0
    ensures 1.0 - a / whole == b / whole
  {
    AddQuotients(a, b, whole);
    QuotientOfItself(whole);
  }

  lemma PartsSplit(builds: Builds)
    ensures builds.Keys == FailedParts(builds) + BuiltParts(builds) && FailedParts(builds) !! BuiltParts(builds)
    ensures builds.Keys == InvalidParts(builds) + ValidParts(builds) && InvalidParts(builds) !! ValidParts(builds)
  {
  }

  /** With one build per target part and nothing failed by our fault, `built` is the share of parts
      that built and `valid` the share that built a valid solid. */
  lemma BuiltAndValidMean(builds: Builds, weight: real)
    requires weight != 0.0 && |builds.Keys| > 0 && !Broken(builds)
    ensures BuiltRow(builds, |builds.Keys|, weight)
      == Subscore(|BuiltParts(builds)| as real / |builds.Keys| as real, weight, Measured)
    ensures ValidRow(builds, |builds.Keys|, weight)
      == Subscore(|ValidParts(builds)| as real / |builds.Keys| as real, weight, Measured)
  {
    PartsSplit(builds);
    RestOf(builds.Keys, FailedParts(builds), BuiltParts(builds));
    RestOf(builds.Keys, InvalidParts(builds), ValidParts(builds));
  }

  /** Every overlap read is a share of the union. */
  predicate IousAreShares(parts: seq<string>, builds: Builds, references: set<string>) {
    forall i :: 0 <= i < |parts| ==> 0.0 <= PartIou(parts[i], builds, references) <= 1.0
  }

  lemma {:induction false} IouSumWithin(parts: seq<string>, builds: Builds, references: set<string>)
    requires IousAreShares(parts, builds, references)
    ensures 0.0 <= IouSum(parts, builds, references) <= |parts| as real
    ensures IouSum(parts, builds, references) == |parts| as real
      <==> forall i :: 0 <= i < |parts| ==> PartIou(parts[i], builds, references) == 1.0
  {
    if parts != [] {
      var n := |parts| - 1;
      var front := parts[..n];
      assert forall i :: 0 <= i < n ==> front[i] == parts[i];
      IouSumWithin(front, builds, references);
    }
  }

  lemma FullOverlaps(parts: seq<string>, builds: Builds, references: set<string>, weight: real)
    requires weight != 0.0 && IousAreShares(parts, builds, references) && !AnyUnread(parts, builds, references)
    requires exists p :: p in parts && p in references
    ensures GeometryRow(parts, builds, references, weight).value == 1.0
      <==> forall i :: 0 <= i < |parts| ==> PartIou(parts[i], builds, references) == 1.0
  {
    IouSumWithin(parts, builds, references);
    WholeOf(IouSum(parts, builds, references), |parts| as real);
  }

  lemma WholeOf(a: real, b: real)
    requires 0.0 <= a <= b && b > 0.0
    ensures 0.0 <= a / b <= 1.0 && (a / b == 1.0 <==> a == b)
  {
    QuotientNotNegative(a, b);
    QuotientMonotone(a, b, b);
    QuotientOfItself(b);
    assert a / b * b == a;
  }

  predicate WeightsValid(w: Weights) {
    w.built >= 0.0 && w.valid >= 0.0 && w.specs >= 0.0 && w.geometry >= 0.0 && w.interference >= 0.0 && w.metrics >= 0.0
  }

  lemma SixRows(a: seq<Subscore>, b: seq<Subscore>)
    requires |a| == |b| == 6
    requires NoBetterRow(a[0], b[0]) && NoBetterRow(a[1], b[1]) && NoBetterRow(a[2], b[2])
    requires NoBetterRow(a[3], b[3]) && NoBetterRow(a[4], b[4]) && NoBetterRow(a[5], b[5])
    ensures NoBetter(a, b)
  {
    forall i | 0 <= i < 6
      ensures NoBetterRow(a[i], b[i])
    {
      if i == 0 || i == 1 || i == 2 {
      } else {
        assert i == 3 || i == 4 || i == 5;
      }
    }
  }

  lemma RowsWellFormed(task: Task, builds: Builds, specs: Subscore, interference: Subscore)
    requires WeightsValid(task.weights) && WellFormed([specs, interference])
    ensures WellFormed(Rows(task, builds, specs, interference))
  {
    assert specs in [specs, interference] && interference in [specs, interference];
  }

  /** Turning a part that did not fail by our fault into a failed one never raises the total, the
      other two subscores being no better than they were. */
  lemma DestroyingNeverPays(task: Task, builds: Builds, p: string, specs: Subscore, interference: Subscore,
                            specsAfter: Subscore, interferenceAfter: Subscore)
    requires p in builds && OnItsOwn(builds[p]) && WeightsValid(task.weights)
    requires WellFormed([specs, interference])
    requires NoBetterRow(specsAfter, specs) && NoBetterRow(interferenceAfter, interference)
    ensures NoBetter(Rows(task, Destroyed(builds, p), specsAfter, interferenceAfter),
                     Rows(task, builds, specs, interference))
    ensures Total(Rows(task, Destroyed(builds, p), specsAfter, interferenceAfter))
      <= Total(Rows(task, builds, specs, interference))
  {
    var n, w := |task.targets|, task.weights;
    DestroyedBuilt(builds, p, n, w.built);
    DestroyedValid(builds, p, n, w.valid);
    DestroyedGeometry(task.targets, builds, task.references, p, w.geometry);
    DestroyedMetrics(task.windows, builds, p, w.metrics);
    RowsWellFormed(task, builds, specs, interference);
    var after := Rows(task, Destroyed(builds, p), specsAfter, interferenceAfter);
    var before := Rows(task, builds, specs, interference);
    SixRows(after, before);
    TotalMonotone(after, before);
  }

  // ------------------------------------------------------------ when leaving rows out pays

  function MassOf(s: Subscore): real {
    if Included(s) then s.value * s.weight else 0.0
  }

  /** The sum of value times weight over the included rows. */
  function Mass(rows: seq<Subscore>): real {
    if rows == [] then 0.0 else Mass(rows[..|rows| - 1]) + MassOf(rows[|rows| - 1])
  }

  lemma ContributionTimes(s: Subscore, whole: real)
    requires whole > 0.0
    ensures Contribution(s, whole) * whole == MassOf(s)
  {
    assert s.weight / whole * whole == s.weight;
  }

  lemma {:induction false} WeightedIsMass(rows: seq<Subscore>, whole: real)
    requires whole > 0.0
    ensures Weighted(rows, whole) * whole == Mass(rows)
  {
    if rows != [] {
      var n := |rows| - 1;
      WeightedIsMass(rows[..n], whole);
      ContributionTimes(rows[n], whole);
    }
  }

  lemma QuotientIs(t: real, whole: real, mass: real)
    requires whole > 0.0 && t * whole == mass
    ensures t == mass / whole
  {
  }

  /** The total is the mean of the included values, each counted by its weight. */
  lemma TotalIsMean(rows: seq<Subscore>)
    requires IncludedWeight(rows) > 0.0
    ensures Total(rows) == Mass(rows) / IncludedWeight(rows)
  {
    WeightedIsMass(rows, IncludedWeight(rows));
    QuotientIs(Total(rows), IncludedWeight(rows), Mass(rows));
  }

  lemma SameSign(x: real, m: real, y: real, n: real)
    requires m > 0.0 && n > 0.0 && x * m == y * n
    ensures x > 0.0 <==> y > 0.0
  {
  }

  lemma PooledShares(pooled: real, first: real, second: real, m: real, n: real)
    requires m > 0.0 && n > 0.0 && pooled * (m + n) == first * m + second * n
    ensures first > pooled <==> second < first
  {
    assert (first - pooled) * (m + n) == (first - second) * n;
    SameSign(first - pooled, m + n, first - second, n);
  }

  /** Pooling two shares gives less than the first exactly when the second is smaller. */
  lemma PoolIff(a: real, m: real, b: real, n: real)
    requires m > 0.0 && n > 0.0
    ensures a / m > (a + b) / (m + n) <==> b / n < a / m
  {
    var pooled, first, second := (a + b) / (m + n), a / m, b / n;
    assert pooled * (m + n) == a + b;
    assert first * m == a;
    assert second * n == b;
    PooledShares(pooled, first, second, m, n);
  }

  /** `rows` holds the rows of both others, in some order. */
  predicate Pools(rows: seq<Subscore>, kept: seq<Subscore>, dropped: seq<Subscore>) {
    IncludedWeight(rows) == IncludedWeight(kept) + IncludedWeight(dropped) && Mass(rows) == Mass(kept) + Mass(dropped)
  }

  lemma NothingWeighs(rows: seq<Subscore>)
    requires WellFormed(rows) && IncludedWeight(rows) == 0.0
    ensures Mass(rows) == 0.0
  {
    if rows != [] {
      var n := |rows| - 1;
      assert rows[n] in rows;
      assert WellFormed(rows[..n]);
      NothingWeighs(rows[..n]);
    }
  }

  lemma SameTotal(a: seq<Subscore>, b: seq<Subscore>)
    requires IncludedWeight(a) == IncludedWeight(b) && Mass(a) == Mass(b)
    ensures Total(a) == Total(b)
  {
    if IncludedWeight(a) > 0.0 {
      TotalIsMean(a);
      TotalIsMean(b);
    }
  }

  lemma PooledTotals(rows: seq<Subscore>, kept: seq<Subscore>, dropped: seq<Subscore>)
    requires Pools(rows, kept, dropped) && IncludedWeight(kept) > 0.0 && IncludedWeight(dropped) > 0.0
    ensures Total(kept) > Total(rows) <==> Total(dropped) < Total(kept)
  {
    TotalIsMean(rows);
    TotalIsMean(kept);
    TotalIsMean(dropped);
    PoolIff(Mass(kept), IncludedWeight(kept), Mass(dropped), IncludedWeight(dropped));
  }

  /** Leaving rows out of the total raises it exactly when they weigh something and their own total
      lies below that of the rest. */
  lemma LeavingOutPaysIff(rows: seq<Subscore>, kept: seq<Subscore>, dropped: seq<Subscore>)
    requires WellFormed(rows) && WellFormed(kept) && WellFormed(dropped) && Pools(rows, kept, dropped)
    ensures Total(kept) > Total(rows) <==> IncludedWeight(dropped) > 0.0 && Total(dropped) < Total(kept)
  {
    if IncludedWeight(dropped) == 0.0 {
      NothingWeighs(dropped);
      SameTotal(kept, rows);
    } else if IncludedWeight(kept) > 0.0 {
      PooledTotals(rows, kept, dropped);
    } else {
      TotalInUnit(rows);
      TotalInUnit(dropped);
    }
  }

  lemma {:induction false} PoolsAround(front: seq<Subscore>, s: Subscore, back: seq<Subscore>)
    ensures IncludedWeight(front + [s] + back) == IncludedWeight(front + back) + IncludedWeight([s])
    ensures Mass(front + [s] + back) == Mass(front + back) + MassOf(s)
  {
    if back == [] {
      NextWeight(front, s);
      NextMass(front, s);
      NextWeight([], s);
      assert front + [s] + back == front + [s] && front + back == front && [] + [s] == [s];
    } else {
      var n := |back| - 1;
      PoolsAround(front, s, back[..n]);
      NextWeight(front + [s] + back[..n], back[n]);
      NextWeight(front + back[..n], back[n]);
      NextMass(front + [s] + back[..n], back[n]);
      NextMass(front + back[..n], back[n]);
      assert front + [s] + back == front + [s] + back[..n] + [back[n]] && front + back == front + back[..n] + [back[n]];
    }
  }

  lemma NextMass(front: seq<Subscore>, s: Subscore)
    ensures Mass(front + [s]) == Mass(front) + MassOf(s)
  {
    assert (front + [s])[..|front|] == front;
  }

  /** A row that is left out has no part in the total. */
  lemma TotalIgnores(front: seq<Subscore>, s: Subscore, back: seq<Subscore>)
    requires !Included(s)
    ensures Total(front + [s] + back) == Total(front + back)
  {
    PoolsAround(front, s, back);
    NextWeight([], s);
    assert [] + [s] == [s];
    SameTotal(front + [s] + back, front + back);
  }

  lemma TotalOfOne(s: Subscore)
    requires Included(s) && s.weight > 0.0
    ensures IncludedWeight([s]) == s.weight && Mass([s]) == MassOf(s) && Total([s]) == s.value
  {
    NextWeight([], s);
    NextMass([], s);
    assert [] + [s] == [s];
    TotalIsMean([s]);
    QuotientIs(s.value, s.weight, MassOf(s));
  }

  /** Leaving one row out raises the total exactly when its value lies below the total of the rest. */
  lemma LeavingOneOutPaysIff(front: seq<Subscore>, s: Subscore, back: seq<Subscore>)
    requires Included(s) && s.weight > 0.0 && IncludedWeight(front + back) > 0.0
    ensures Total(front + back) > Total(front + [s] + back) <==> s.value < Total(front + back)
  {
    PoolsAround(front, s, back);
    TotalOfOne(s);
    PooledTotals(front + [s] + back, front + back, [s]);
  }

  // ------------------------------------------------------------ the spec rows the rubric owns

  datatype SpecStatus = Pass | Fail | Skip | Error | Other
  datatype SpecRow = SpecRow(id: string, status: SpecStatus, reason: string)

  /** A spec run: which check ids each part declared, which the project did, and every row. */
  datatype Report = Report(parts: map<string, set<string>>, project: set<string>, checks: seq<SpecRow>)

  function OwnedByParts(report: Report, injected: seq<string>): set<string> {
    if injected == [] then {}
    else
      var p := injected[|injected| - 1];
      OwnedByParts(report, injected[..|injected| - 1]) + if p in report.parts then report.parts[p] else {}
  }

  function Owned(report: Report, injected: seq<string>, projectRubric: bool): set<string> {
    OwnedByParts(report, injected) + if projectRubric then report.project else {}
  }

  function Keep(rows: seq<SpecRow>, owned: set<string>): seq<SpecRow> {
    if rows == [] then []
    else Keep(rows[..|rows| - 1], owned) + if rows[|rows| - 1].id in owned then [rows[|rows| - 1]] else []
  }

  predicate Induced(row: SpecRow) {
    row.status == Skip && (row.reason == "mesh_only" || row.reason == "no_instances")
  }

  function BucketOf(row: SpecRow): SpecStatus {
    if Induced(row) then Fail else row.status
  }

  function IdsIn(rows: seq<SpecRow>, bucket: SpecStatus): seq<string> {
    if rows == [] then []
    else
      var row := rows[|rows| - 1];
      IdsIn(rows[..|rows| - 1], bucket) + if BucketOf(row) == bucket then [row.id] else []
  }

  predicate CountsAsPass(row: SpecRow) {
    row.status == Pass
  }

  predicate Counts(row: SpecRow) {
    row.status == Pass || row.status == Fail || row.status == Error || Induced(row)
  }

  function PassCount(rows: seq<SpecRow>): nat {
    if rows == [] then 0 else PassCount(rows[..|rows| - 1]) + if CountsAsPass(rows[|rows| - 1]) then 1 else 0
  }

  function Counted(rows: seq<SpecRow>): (n: nat)
    ensures PassCount(rows) <= n <= |rows|
  {
    if rows == [] then 0 else Counted(rows[..|rows| - 1]) + if Counts(rows[|rows| - 1]) then 1 else 0
  }

  /** A share, zero of nothing. */
  function ShareOf(a: nat, b: nat): (v: real)
    requires a <= b
    ensures 0.0 <= v <= 1.0
  {
    if b == 0 then 0.0
    else
      ShareInUnit(a, b);
      a as real / b as real
  }

  function SpecValue(rows: seq<SpecRow>): (v: real)
    ensures 0.0 <= v <= 1.0
  {
    ShareOf(PassCount(rows), Counted(rows))
  }

  function OwnedRows(report: Report, injected: seq<string>, projectRubric: bool): seq<SpecRow> {
    Keep(report.checks, Owned(report, injected, projectRubric))
  }

  method CollectOwned(report: Report, injected: seq<string>, projectRubric: bool) returns (rows: seq<SpecRow>)
    ensures rows == OwnedRows(report, injected, projectRubric)
  {
    var owned: set<string> := {};
    for i := 0 to |injected|
      invariant owned == OwnedByParts(report, injected[..i])
    {
      assert injected[..i + 1][..i] == injected[..i];
      if injected[i] in report.parts {
        owned := owned + report.parts[injected[i]];
      }
    }
    assert injected[..|injected|] == injected;
    if projectRubric {
      owned := owned + report.project;
    }
    assert owned == Owned(report, injected, projectRubric);
    rows := [];
    for i := 0 to |report.checks|
      invariant rows == Keep(report.checks[..i], owned)
    {
      assert report.checks[..i + 1][..i] == report.checks[..i];
      if report.checks[i].id in owned {
        rows := rows + [report.checks[i]];
      }
    }
    assert report.checks[..|report.checks|] == report.checks;
  }

  lemma {:induction false} CountedAreBucketed(rows: seq<SpecRow>)
    ensures Counted(rows) == |IdsIn(rows, Pass)| + |IdsIn(rows, Fail)| + |IdsIn(rows, Error)|
    ensures PassCount(rows) == |IdsIn(rows, Pass)|
  {
    if rows != [] {
      CountedAreBucketed(rows[..|rows| - 1]);
    }
  }

  lemma NextSpecRow(front: seq<SpecRow>, row: SpecRow, bucket: SpecStatus)
    ensures IdsIn(front + [row], bucket) == IdsIn(front, bucket) + if BucketOf(row) == bucket then [row.id] else []
  {
    assert (front + [row])[..|front|] == front;
  }

  /** The buckets; an induced skip goes to the failures. */
  method Bucket(rows: seq<SpecRow>)
    returns (value: real, passed: seq<string>, failed: seq<string>, skipped: seq<string>, errors: seq<string>)
    ensures value == SpecValue(rows) && |passed| == PassCount(rows)
    ensures failed == IdsIn(rows, Fail) && skipped == IdsIn(rows, Skip) && errors == IdsIn(rows, Error)
  {
    passed, failed, skipped, errors := [], [], [], [];
    for i := 0 to |rows|
      invariant passed == IdsIn(rows[..i], Pass) && failed == IdsIn(rows[..i], Fail)
      invariant skipped == IdsIn(rows[..i], Skip) && errors == IdsIn(rows[..i], Error)
    {
      var row := rows[i];
      assert rows[..i + 1] == rows[..i] + [row];
      NextSpecRow(rows[..i], row, Pass);
      NextSpecRow(rows[..i], row, Fail);
      NextSpecRow(rows[..i], row, Skip);
      NextSpecRow(rows[..i], row, Error);
      var status := if row.status == Skip && Induced(row) then Fail else row.status;
      match status {
        case Pass => passed := passed + [row.id];
        case Fail => failed := failed + [row.id];
        case Skip => skipped := skipped + [row.id];
        case Error => errors := errors + [row.id];
        case Other =>
      }
    }
    assert rows[..|rows|] == rows;
    CountedAreBucketed(rows);
    var denominator := |passed| + |failed| + |errors|;
    value := if denominator == 0 then 0.0 else |passed| as real / denominator as real;
  }

  /** What running the rubric came to. */
  datatype SpecRun = NoRunner | RunRaised(exc: Exception) | Ran(report: Report)

  /** `injected` are the parts that had a script to append the rubric to. */
  function SpecsRow(run: SpecRun, partRubrics: bool, projectRubric: bool, injected: seq<string>,
                    weight: real): Subscore {
    if weight == 0.0 then NOT_SCORED
    else if !partRubrics && !projectRubric then Rated(0.0, weight, Excluded)
    else if injected == [] && !projectRubric then Rated(0.0, weight, Measured)
    else match run
      case NoRunner => Rated(0.0, weight, Excluded)
      case RunRaised(exc) => Rated(0.0, weight, if BlamesHarness(exc) then Excluded else Measured)
      case Ran(report) => Rated(SpecValue(OwnedRows(report, injected, projectRubric)), weight, Measured)
  }

  /** The same injected parts and project declared the same checks; the rows differ only by extra
      ones no rubric part declared. */
  predicate OnlyUnownedAdded(before: Report, after: Report, injected: seq<string>, projectRubric: bool, at: nat,
                             extra: seq<SpecRow>) {
    && (forall p :: p in injected ==>
         ((p in before.parts) == (p in after.parts)) && (p in before.parts ==> before.parts[p] == after.parts[p]))
    && before.project == after.project && at <= |before.checks|
    && after.checks == before.checks[..at] + extra + before.checks[at..]
    && (forall row :: row in extra ==> row.id !in Owned(before, injected, projectRubric))
  }

  lemma {:induction false} SameOwners(before: Report, after: Report, injected: seq<string>)
    requires forall p :: p in injected ==>
      ((p in before.parts) == (p in after.parts)) && (p in before.parts ==> before.parts[p] == after.parts[p])
    ensures OwnedByParts(before, injected) == OwnedByParts(after, injected)
  {
    if injected != [] {
      var n := |injected| - 1;
      assert injected == injected[..n] + [injected[n]];
      SameOwners(before, after, injected[..n]);
    }
  }

  lemma {:induction false} KeepOfBoth(a: seq<SpecRow>, b: seq<SpecRow>, owned: set<string>)
    ensures Keep(a + b, owned) == Keep(a, owned) + Keep(b, owned)
  {
    if b == [] {
      assert a + b == a;
    } else {
      var n := |b| - 1;
      KeepOfBoth(a, b[..n], owned);
      assert (a + b)[..|a + b| - 1] == a + b[..n];
    }
  }

  lemma {:induction false} KeepsNone(extra: seq<SpecRow>, owned: set<string>)
    requires forall row :: row in extra ==> row.id !in owned
    ensures Keep(extra, owned) == []
  {
    if extra != [] {
      var n := |extra| - 1;
      assert extra == extra[..n] + [extra[n]];
      KeepsNone(extra[..n], owned);
    }
  }

  /** Rows a candidate adds by declaring checks on parts of its own change nothing. */
  lemma UnownedRowsDoNotCount(before: Report, after: Report, injected: seq<string>, projectRubric: bool, at: nat,
                              extra: seq<SpecRow>)
    requires OnlyUnownedAdded(before, after, injected, projectRubric, at, extra)
    ensures OwnedRows(after, injected, projectRubric) == OwnedRows(before, injected, projectRubric)
  {
    SameOwners(before, after, injected);
    var owned := Owned(before, injected, projectRubric);
    var front, back := before.checks[..at], before.checks[at..];
    KeepOfBoth(front + extra, back, owned);
    KeepOfBoth(front, extra, owned);
    KeepsNone(extra, owned);
    KeepOfBoth(front, back, owned);
    assert front + back == before.checks;
  }

  function OneIf(b: bool): nat {
    if b then 1 else 0
  }

  lemma {:induction false} CountsOfUpdate(rows: seq<SpecRow>, i: nat, row: SpecRow)
    requires i < |rows|
    ensures PassCount(rows[i := row]) == PassCount(rows) - OneIf(CountsAsPass(rows[i])) + OneIf(CountsAsPass(row))
    ensures Counted(rows[i := row]) == Counted(rows) - OneIf(Counts(rows[i])) + OneIf(Counts(row))
  {
    var n := |rows| - 1;
    if i == n {
      assert rows[i := row][..n] == rows[..n];
    } else {
      CountsOfUpdate(rows[..n], i, row);
      assert rows[i := row][..n] == rows[..n][i := row];
    }
  }

  lemma ShareFalls(a: nat, b: nat, c: nat, d: nat)
    requires a <= c <= d <= b && a <= b
    requires d == 0 ==> a == 0
    ensures ShareOf(a, b) <= ShareOf(c, d)
  {
    if d > 0 {
      QuotientMonotone(a as real, c as real, b as real);
      LargerDivisor(c as real, b as real, d as real);
    } else if b > 0 {
      assert a as real / b as real == 0.0;
    }
  }

  /** Making an owned check unmeasurable, whatever it read before, never raises the value. */
  lemma InducedSkipNeverPays(rows: seq<SpecRow>, i: nat, skip: SpecRow)
    requires i < |rows| && Induced(skip)
    ensures SpecValue(rows[i := skip]) <= SpecValue(rows)
  {
    CountsOfUpdate(rows, i, skip);
    ShareFalls(PassCount(rows[i := skip]), Counted(rows[i := skip]), PassCount(rows), Counted(rows));
  }

  /** A skip for any other reason leaves the denominator: on a failing check it pays exactly when
      some check passes. */
  lemma HonestSkipOfAFailure(rows: seq<SpecRow>, i: nat, skip: SpecRow)
    requires i < |rows| && (rows[i].status == Fail || rows[i].status == Error) && skip.status == Skip && !Induced(skip)
    ensures SpecValue(rows[i := skip]) > SpecValue(rows) <==> PassCount(rows) > 0
  {
    CountsOfUpdate(rows, i, skip);
    SmallerWhole(PassCount(rows), Counted(rows));
  }

  lemma SmallerWhole(a: nat, b: nat)
    requires a < b
    ensures ShareOf(a, b - 1) > ShareOf(a, b) <==> a > 0
  {
    if a == 0 {
      assert ShareOf(0, b) == 0.0;
    } else {
      StrictlyLarger(a, b);
    }
  }

  lemma StrictlyLarger(a: nat, b: nat)
    requires 0 < a < b
    ensures a as real / (b - 1) as real > a as real / b as real
  {
    var q := a as real / b as real;
    assert q * b as real == a as real;
    assert q > 0.0;
    assert q * (b - 1) as real == a as real - q;
    Cancel(q, a as real / (b - 1) as real, (b - 1) as real);
  }

  // ------------------------------------------------------------ the `specs` row

  lemma {:induction false} KeepSplits(rows: seq<SpecRow>, owned: set<string>, fewer: set<string>)
    requires fewer <= owned
    ensures PassCount(Keep(rows, owned)) == PassCount(Keep(rows, fewer)) + PassCount(Keep(rows, owned - fewer))
    ensures Counted(Keep(rows, owned)) == Counted(Keep(rows, fewer)) + Counted(Keep(rows, owned - fewer))
  {
    if rows != [] {
      var n := |rows| - 1;
      KeepSplits(rows[..n], owned, fewer);
      CountsOfNext(Keep(rows[..n], owned), rows[n]);
      CountsOfNext(Keep(rows[..n], fewer), rows[n]);
      CountsOfNext(Keep(rows[..n], owned - fewer), rows[n]);
    }
  }

  lemma CountsOfNext(front: seq<SpecRow>, row: SpecRow)
    ensures PassCount(front + [row]) == PassCount(front) + OneIf(CountsAsPass(row))
    ensures Counted(front + [row]) == Counted(front) + OneIf(Counts(row))
    ensures front + [] == front
  {
    assert (front + [row])[..|front|] == front;
  }

  lemma {:induction false} FewerOwners(report: Report, injected: seq<string>, p: string)
    requires p in injected && p in report.parts
    ensures report.parts[p] <= OwnedByParts(report, injected)
  {
    var n := |injected| - 1;
    if injected[n] != p {
      FewerOwners(report, injected[..n], p);
    }
  }

  lemma {:induction false} FewerOwned(report: Report, fewer: seq<string>, injected: seq<string>)
    requires forall p :: p in fewer ==> p in injected
    ensures OwnedByParts(report, fewer) <= OwnedByParts(report, injected)
  {
    if fewer != [] {
      var n := |fewer| - 1;
      assert fewer[n] in fewer;
      assert forall p :: p in fewer[..n] ==> p in fewer;
      FewerOwned(report, fewer[..n], injected);
      if fewer[n] in report.parts {
        FewerOwners(report, injected, fewer[n]);
      }
    }
  }

  lemma SharePoolIff(a: nat, m: nat, b: nat, n: nat)
    requires a <= m && b <= n
    ensures ShareOf(a, m) > ShareOf(a + b, m + n) <==> n > 0 && ShareOf(b, n) < ShareOf(a, m)
  {
    if m > 0 && n > 0 {
      PoolIff(a as real, m as real, b as real, n as real);
    }
  }

  /** Handing in fewer parts than the rubric was written for, by deleting some with their scripts, so
      that the checks of the others come out as they did, raises the `specs` row exactly when the checks
      that go pass less often than those that stay. */
  lemma DeletedRubricPaysIff(report: Report, after: Report, partRubrics: bool, projectRubric: bool, fewer: seq<string>,
                             injected: seq<string>, weight: real)
    requires weight != 0.0 && partRubrics && forall p :: p in fewer ==> p in injected
    requires OwnedRows(after, fewer, projectRubric) == OwnedRows(report, fewer, projectRubric)
    ensures var gone := Owned(report, injected, projectRubric) - Owned(report, fewer, projectRubric);
      var dropped, kept := Keep(report.checks, gone), OwnedRows(report, fewer, projectRubric);
      SpecsRow(Ran(after), partRubrics, projectRubric, fewer, weight).value
        > SpecsRow(Ran(report), partRubrics, projectRubric, injected, weight).value
      <==> Counted(dropped) > 0 && SpecValue(dropped) < SpecValue(kept)
  {
    FewerOwned(report, fewer, injected);
    SpecsRowIs(after, projectRubric, fewer, weight);
    SpecsRowIs(report, projectRubric, injected, weight);
    FewerChecksPayIff(report.checks, Owned(report, injected, projectRubric), Owned(report, fewer, projectRubric));
  }

  lemma FewerChecksPayIff(rows: seq<SpecRow>, owned: set<string>, fewer: set<string>)
    requires fewer <= owned
    ensures var dropped, kept := Keep(rows, owned - fewer), Keep(rows, fewer);
      SpecValue(kept) > SpecValue(Keep(rows, owned)) <==> Counted(dropped) > 0 && SpecValue(dropped) < SpecValue(kept)
  {
    KeepSplits(rows, owned, fewer);
    var dropped, kept := Keep(rows, owned - fewer), Keep(rows, fewer);
    SharePoolIff(PassCount(kept), Counted(kept), PassCount(dropped), Counted(dropped));
  }

  lemma {:induction false} KeepsNothing(rows: seq<SpecRow>)
    ensures Keep(rows, {}) == []
  {
    if rows != [] {
      KeepsNothing(rows[..|rows| - 1]);
    }
  }

  lemma SpecsRowIs(report: Report, projectRubric: bool, injected: seq<string>, weight: real)
    requires weight != 0.0
    ensures SpecsRow(Ran(report), true, projectRubric, injected, weight)
      == Subscore(SpecValue(OwnedRows(report, injected, projectRubric)), weight, Measured)
  {
    if injected == [] && !projectRubric {
      assert Owned(report, injected, projectRubric) == {};
      KeepsNothing(report.checks);
    }
  }

  /** Checks a candidate declares on parts of its own leave the `specs` row as it was. */
  lemma UnownedRowsKeepTheRow(before: Report, after: Report, partRubrics: bool, injected: seq<string>,
                              projectRubric: bool, at: nat, extra: seq<SpecRow>, weight: real)
    requires OnlyUnownedAdded(before, after, injected, projectRubric, at, extra)
    ensures SpecsRow(Ran(after), partRubrics, projectRubric, injected, weight)
      == SpecsRow(Ran(before), partRubrics, projectRubric, injected, weight)
  {
    UnownedRowsDoNotCount(before, after, injected, projectRubric, at, extra);
  }

  lemma {:induction false} KeepOfUpdate(rows: seq<SpecRow>, i: nat, row: SpecRow, owned: set<string>) returns (k: nat)
    requires i < |rows| && row.id == rows[i].id && row.id in owned
    ensures k < |Keep(rows, owned)| && Keep(rows[i := row], owned) == Keep(rows, owned)[k := row]
  {
    var n := |rows| - 1;
    if i == n {
      assert rows[i := row][..n] == rows[..n];
      k := |Keep(rows[..n], owned)|;
    } else {
      assert rows[i := row][..n] == rows[..n][i := row];
      k := KeepOfUpdate(rows[..n], i, row, owned);
    }
  }

  /** Making one check of the rubric unmeasurable, whatever it read before, leaves the `specs` row in
      the total and never raises it. */
  lemma InducedSkipIsNoBetter(report: Report, i: nat, skip: SpecRow, partRubrics: bool, injected: seq<string>,
                              projectRubric: bool, weight: real)
    requires i < |report.checks| && Induced(skip) && skip.id == report.checks[i].id
    requires skip.id in Owned(report, injected, projectRubric)
    ensures var after := report.(checks := report.checks[i := skip]);
      NoBetterRow(SpecsRow(Ran(after), partRubrics, projectRubric, injected, weight),
                  SpecsRow(Ran(report), partRubrics, projectRubric, injected, weight))
  {
    var after := report.(checks := report.checks[i := skip]);
    SameOwners(report, after, injected);
    var owned := Owned(report, injected, projectRubric);
    var k := KeepOfUpdate(report.checks, i, skip, owned);
    InducedSkipNeverPays(Keep(report.checks, owned), k, skip);
  }
}
