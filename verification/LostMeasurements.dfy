/** Parts that build, and measurements of them that do not come back: when taking the overlap request,
    the interference check or the spec run down raises the total, alone or on top of a broken part. */
module LostMeasurements {
  import opened Arith
  import opened Options
  import opened Scoring
  import opened Sabotage

  // ------------------------------------------------------------ what a lost measurement leaves

  /** The part came to the same, or built as before while the kernel never answered for its overlap:
      a timeout, a dead worker, a failed boolean, or an answer that is no number. */
  predicate LosesOverlap(before: Attempt, after: Attempt) {
    after == before || (before.Succeeded? && after == before.(overlap := KernelGone))
  }

  /** The spec run timed out or its worker died. */
  predicate RunDied(found: Found) {
    found.rubric.RunRaised? && BlamesHarness(found.rubric.exc)
  }

  /** The same submission, built the same, with some of its measurements lost. */
  predicate MeasurementsLost(before: Found, after: Found) {
    && after.attempts.Keys == before.attempts.Keys
    && (forall p :: p in after.attempts ==> LosesOverlap(before.attempts[p], after.attempts[p]))
    && after.left == before.left && after.injected == before.injected
    && (after.rubric == before.rubric || RunDied(after))
    && (after.check == before.check || CheckDied(after))
  }

  /** The builds differ in overlaps only. */
  predicate SameButOverlaps(before: Builds, after: Builds) {
    && before.Keys == after.Keys
    && forall p :: p in after ==>
         after[p] == before[p] || (before[p].Built? && after[p] == before[p].(overlap := KernelGone))
  }

  lemma LostBuilds(before: Found, after: Found)
    requires MeasurementsLost(before, after)
    ensures SameButOverlaps(BuildsOf(before), BuildsOf(after))
  {
    var b, a := BuildsOf(before), BuildsOf(after);
    assert b.Keys == before.attempts.Keys && a.Keys == after.attempts.Keys;
    forall p | p in a
      ensures a[p] == b[p] || (b[p].Built? && a[p] == b[p].(overlap := KernelGone))
    {
      assert LosesOverlap(before.attempts[p], after.attempts[p]);
    }
  }

  lemma SameButOverlap(before: Builds, after: Builds, p: string)
    requires SameButOverlaps(before, after)
    ensures var b, a := BuildOf(before, p), BuildOf(after, p);
      a == b || (b.Built? && a == b.(overlap := KernelGone))
  {
    assert p in before.Keys <==> p in after.Keys;
  }

  lemma BuiltRowsStay(before: Builds, after: Builds, n: nat, weight: real)
    requires SameButOverlaps(before, after)
    ensures BuiltRow(after, n, weight) == BuiltRow(before, n, weight)
    ensures ValidRow(after, n, weight) == ValidRow(before, n, weight)
  {
    assert forall p :: p in before.Keys <==> p in after.Keys;
    assert FailedParts(after) == FailedParts(before);
    assert InvalidParts(after) == InvalidParts(before);
    assert forall p :: p in after ==> (after[p] == HarnessError <==> before[p] == HarnessError);
  }

  lemma {:induction false} PassedStays(windows: seq<Window>, before: Builds, after: Builds)
    requires SameButOverlaps(before, after)
    ensures Passed(windows, after) == Passed(windows, before)
  {
    if windows != [] {
      var n := |windows| - 1;
      PassedStays(windows[..n], before, after);
      SameButOverlap(before, after, windows[n].part);
    }
  }

  lemma MetricsStay(windows: Option<seq<Window>>, before: Builds, after: Builds, weight: real)
    requires SameButOverlaps(before, after)
    ensures MetricsRow(windows, after, weight) == MetricsRow(windows, before, weight)
  {
    if windows.Some? {
      PassedStays(windows.value, before, after);
      forall w | w in windows.value
        ensures BuildOf(after, w.part) == HarnessError <==> BuildOf(before, w.part) == HarnessError
      {
        SameButOverlap(before, after, w.part);
      }
    }
  }

  /** A geometry row that is still there has lost no overlap it reads. */
  lemma GeometryStays(parts: seq<string>, before: Builds, after: Builds, references: set<string>, weight: real)
    requires SameButOverlaps(before, after) && Included(GeometryRow(parts, after, references, weight))
    ensures GeometryRow(parts, after, references, weight) == GeometryRow(parts, before, references, weight)
  {
    forall i | 0 <= i < |parts| && parts[i] in references
      ensures BuildOf(after, parts[i]) == BuildOf(before, parts[i])
    {
      SameButOverlap(before, after, parts[i]);
      if Unread(parts[i], after, references) {
        UnreadSomewhere(parts, i, after, references);
      }
    }
    SameGeometry(parts, before, after, references);
    SameMeshes(parts, before, after, references);
  }

  /** Which rows are left out. */
  function LeftOut(rows: seq<Subscore>): (cut: seq<bool>)
    ensures |cut| == |rows| && forall i :: 0 <= i < |rows| ==> cut[i] == !Included(rows[i])
  {
    seq(|rows|, i requires 0 <= i < |rows| => !Included(rows[i]))
  }

  lemma SpecsStay(task: Task, before: Found, after: Found)
    requires MeasurementsLost(before, after)
    ensures Included(SpecsOf(task, after)) ==> SpecsOf(task, after) == SpecsOf(task, before)
    ensures Included(InterferenceOf(task, after)) ==> InterferenceOf(task, after) == InterferenceOf(task, before)
  {
  }

  /** Losing measurements changes no row: it leaves some out. */
  lemma LostRows(task: Task, before: Found, after: Found)
    requires MeasurementsLost(before, after)
    ensures CutFrom(RowsOf(task, after), RowsOf(task, before), LeftOut(RowsOf(task, after)))
    ensures var rows, was := RowsOf(task, after), RowsOf(task, before);
      rows[0] == was[0] && rows[1] == was[1] && rows[5] == was[5]
  {
    var b, a := BuildsOf(before), BuildsOf(after);
    LostBuilds(before, after);
    BuiltRowsStay(b, a, |task.targets|, task.weights.built);
    BuiltRowsStay(b, a, |task.targets|, task.weights.valid);
    MetricsStay(task.windows, b, a, task.weights.metrics);
    SpecsStay(task, before, after);
    if Included(GeometryRow(task.targets, a, task.references, task.weights.geometry)) {
      GeometryStays(task.targets, b, a, task.references, task.weights.geometry);
    }
  }

  // ------------------------------------------------------------ when it pays

  /** Losing measurements leaves the total to the rows that are still there, and that is a gain exactly
      when the rows lost weigh something and scored less together than the rest. */
  lemma LostMeasurementsPayIff(task: Task, before: Found, after: Found)
    requires WeightsValid(task.weights) && MeasurementsLost(before, after)
    ensures var lost := LeftOut(RowsOf(task, after));
      var dropped, kept := Where(RowsOf(task, before), lost, true), Where(RowsOf(task, before), lost, false);
      && Total(RowsOf(task, after)) == Total(kept)
      && (Total(RowsOf(task, after)) > Total(RowsOf(task, before)) <==>
            IncludedWeight(dropped) > 0.0 && Total(dropped) < Total(kept))
  {
    RowsOfWellFormed(task, before);
    LostRows(task, before, after);
    CutRowsPayIff(RowsOf(task, after), RowsOf(task, before), LeftOut(RowsOf(task, after)));
  }

  /** One part builds, and the kernel never answers for its overlap with the reference. */
  predicate OverlapDied(task: Task, before: Found, after: Found, p: string) {
    && p in before.attempts && before.attempts[p].Succeeded? && p in task.targets && p in task.references
    && after == before.(attempts := before.attempts[p := before.attempts[p].(overlap := KernelGone)])
  }

  lemma OverlapDiedLoses(task: Task, before: Found, after: Found, p: string)
    requires OverlapDied(task, before, after, p)
    ensures MeasurementsLost(before, after) && !Included(RowsOf(task, after)[3])
  {
    assert after.attempts.Keys == before.attempts.Keys;
    var i :| 0 <= i < |task.targets| && task.targets[i] == p;
    assert Unread(task.targets[i], BuildsOf(after), task.references);
    UnreadSomewhere(task.targets, i, BuildsOf(after), task.references);
  }

  lemma AroundGeometry(rows: seq<Subscore>)
    requires |rows| == 6
    ensures rows == rows[..3] + [rows[3]] + rows[4..]
  {
  }

  lemma OnlyGeometryGoes(task: Task, before: Found, after: Found, p: string)
    requires OverlapDied(task, before, after, p)
    ensures var was := RowsOf(task, before); Total(RowsOf(task, after)) == Total(was[..3] + was[4..])
  {
    OverlapDiedLoses(task, before, after, p);
    LostRows(task, before, after);
    var rows, was := RowsOf(task, after), RowsOf(task, before);
    AroundGeometry(rows);
    assert rows[..3] == was[..3] && rows[4..] == was[4..];
    TotalIgnores(rows[..3], rows[3], rows[4..]);
  }

  /** Such a part raises the total exactly when the geometry row scored below the total of the rest. */
  lemma DeadOverlapPaysIff(task: Task, before: Found, after: Found, p: string)
    requires OverlapDied(task, before, after, p)
    requires var was := RowsOf(task, before);
      Included(was[3]) && was[3].weight > 0.0 && IncludedWeight(was[..3] + was[4..]) > 0.0
    ensures Total(RowsOf(task, after)) > Total(RowsOf(task, before))
      <==> RowsOf(task, before)[3].value < Total(RowsOf(task, after))
  {
    var was := RowsOf(task, before);
    OnlyGeometryGoes(task, before, after, p);
    AroundGeometry(was);
    LeavingOneOutPaysIff(was[..3], was[3], was[4..]);
  }

  // ------------------------------------------------------------ a broken part, and measurements lost with it

  lemma MeanIsMass(rows: seq<Subscore>)
    requires IncludedWeight(rows) > 0.0
    ensures Mass(rows) == Total(rows) * IncludedWeight(rows)
  {
    TotalIsMean(rows);
  }

  lemma PoolLeavesMean(rows: seq<Subscore>, kept: seq<Subscore>, dropped: seq<Subscore>)
    requires Pools(rows, kept, dropped) && IncludedWeight(kept) > 0.0 && IncludedWeight(dropped) > 0.0
    ensures RowLeavesMean(IncludedWeight(dropped), Total(dropped), IncludedWeight(kept), IncludedWeight(rows),
                          Mass(kept), Mass(rows), Total(kept), Total(rows))
  {
    TotalIsMean(rows);
    TotalIsMean(kept);
    MeanIsMass(dropped);
  }

  lemma NothingDropped(whole: real, total: real, value: real, kept: real)
    requires whole > 0.0
    ensures DropOutweighs(0.0, whole, total, value, kept) <==> kept > total
  {
    assert 0.0 / whole == 0.0;
    assert 0.0 / whole * (total - value) == 0.0;
  }

  lemma AllDroppedNoGain(whole: real, total: real, value: real)
    requires whole > 0.0
    ensures !DropOutweighs(whole, whole, total, value, value)
  {
    assert whole / whole == 1.0;
  }

  /** `rows` weighs what `was` weighed, and splits into rows kept and rows dropped. */
  predicate WeighedAndSplit(rows: seq<Subscore>, was: seq<Subscore>, kept: seq<Subscore>, dropped: seq<Subscore>) {
    && WellFormed(rows) && WellFormed(was) && WellFormed(kept) && WellFormed(dropped)
    && IncludedWeight(rows) == IncludedWeight(was) && Pools(rows, kept, dropped)
  }

  lemma LossThenDropsPayIff(rows: seq<Subscore>, was: seq<Subscore>, kept: seq<Subscore>, dropped: seq<Subscore>)
    requires WeighedAndSplit(rows, was, kept, dropped)
    ensures Total(kept) > Total(was)
      <==> DropOutweighs(IncludedWeight(dropped), IncludedWeight(was), Total(was), Total(dropped), Total(rows))
  {
    if IncludedWeight(was) == 0.0 {
    } else if IncludedWeight(dropped) == 0.0 {
      NothingWeighs(dropped);
      SameTotal(kept, rows);
      NothingDropped(IncludedWeight(was), Total(was), Total(dropped), Total(rows));
    } else if IncludedWeight(kept) == 0.0 {
      EverythingDropped(rows, was, kept, dropped);
    } else {
      PoolLeavesMean(rows, kept, dropped);
      GainIff(IncludedWeight(dropped), Total(dropped), IncludedWeight(kept), IncludedWeight(rows), Mass(kept),
              Mass(rows), Total(was), Total(kept), Total(rows));
    }
  }

  lemma EverythingDropped(rows: seq<Subscore>, was: seq<Subscore>, kept: seq<Subscore>, dropped: seq<Subscore>)
    requires WeighedAndSplit(rows, was, kept, dropped) && IncludedWeight(was) > 0.0 && IncludedWeight(kept) == 0.0
    ensures Total(kept) <= Total(was)
    ensures !DropOutweighs(IncludedWeight(dropped), IncludedWeight(was), Total(was), Total(dropped), Total(rows))
  {
    NothingWeighs(kept);
    SameTotal(rows, dropped);
    TotalInUnit(was);
    AllDroppedNoGain(IncludedWeight(was), Total(was), Total(dropped));
  }

  /** Breaking a part, and with it any of the measurements of whatever still builds, gains exactly when
      the share of the rows lost, times how far they lay below the total, outweighs what the broken part
      costs with every measurement answered - a cost that `Sabotage.BrokenPartPaysIff` accounts for. */
  lemma SabotagePaysIff(task: Task, before: Found, answered: Found, after: Found, p: string)
    requires WeightsValid(task.weights) && PartBroken(before, answered, p) && SameMeasured(task, before, answered)
    requires MeasurementsLost(answered, after)
    ensures var dropped := Where(RowsOf(task, answered), LeftOut(RowsOf(task, after)), true);
      var total, kept := Total(RowsOf(task, before)), Total(RowsOf(task, answered));
      Total(RowsOf(task, after)) > total <==>
        DropOutweighs(IncludedWeight(dropped), IncludedWeight(RowsOf(task, before)), total, Total(dropped), kept)
  {
    BrokenWeighsTheSame(task, before, answered, p);
    RowsOfWellFormed(task, before);
    RowsOfWellFormed(task, answered);
    LostMeasurementsPayIff(task, answered, after);
    var rows, lost := RowsOf(task, answered), LeftOut(RowsOf(task, after));
    WherePools(rows, lost);
    WhereWellFormed(rows, lost, true);
    WhereWellFormed(rows, lost, false);
    LossThenDropsPayIff(rows, RowsOf(task, before), Where(rows, lost, false), Where(rows, lost, true));
  }

  // ------------------------------------------------------------ an example

  /** One part to build and to compare with its reference; `built` weighs a fifth. */
  const PLATE_TASK := Task(["plate"], Weights(0.2, 0.0, 0.0, 0.8, 0.0, 0.0), {"plate"}, None, false, false)

  function PlateFound(m: Metrics, o: Overlap): Found {
    Found(map["plate" := Succeeded(m, o)], map[], NoRunner, [], Checked(0, 0, 0))
  }

  lemma PlateRows(m: Metrics, o: Overlap)
    requires o == Iou(0.0) || o == KernelGone
    ensures RowsOf(PLATE_TASK, PlateFound(m, o))
      == [Subscore(1.0, 0.2, Measured), NOT_SCORED, NOT_SCORED,
          Subscore(0.0, 0.8, if o == KernelGone then Excluded else Measured), NOT_SCORED, NOT_SCORED]
  {
    var builds := BuildsOf(PlateFound(m, o));
    assert builds == map["plate" := Built(m, o)];
    assert FailedParts(builds) == {};
    var parts, references := ["plate"], {"plate"};
    assert parts[0] in references && parts[..0] == [];
    assert AnyUnread(parts, builds, references) <==> o == KernelGone;
    assert IouSum(parts, builds, references) == 0.0;
    assert AllMesh(parts, builds, references) ==> IsMesh("plate", builds, references);
  }

  lemma TwoOfSix(a: Subscore, d: Subscore)
    ensures Total([a, NOT_SCORED, NOT_SCORED, d, NOT_SCORED, NOT_SCORED]) == Total([a, d])
  {
    calc {
      Total([a, NOT_SCORED, NOT_SCORED, d, NOT_SCORED, NOT_SCORED]);
      { TotalIgnores([a], NOT_SCORED, [NOT_SCORED, d, NOT_SCORED, NOT_SCORED]);
        assert [a] + [NOT_SCORED] + [NOT_SCORED, d, NOT_SCORED, NOT_SCORED]
            == [a, NOT_SCORED, NOT_SCORED, d, NOT_SCORED, NOT_SCORED]; }
      Total([a] + [NOT_SCORED, d, NOT_SCORED, NOT_SCORED]);
      { TotalIgnores([a], NOT_SCORED, [d, NOT_SCORED, NOT_SCORED]);
        assert [a] + [NOT_SCORED, d, NOT_SCORED, NOT_SCORED] == [a] + [NOT_SCORED] + [d, NOT_SCORED, NOT_SCORED]; }
      Total([a] + [d, NOT_SCORED, NOT_SCORED]);
      { TotalIgnores([a, d], NOT_SCORED, [NOT_SCORED]);
        assert [a] + [d, NOT_SCORED, NOT_SCORED] == [a, d] + [NOT_SCORED] + [NOT_SCORED]; }
      Total([a, d] + [NOT_SCORED]);
      { TotalIgnores([a, d], NOT_SCORED, []);
        assert [a, d] + [NOT_SCORED] == [a, d] + [NOT_SCORED] + [] && [a, d] + [] == [a, d]; }
      Total([a, d]);
    }
  }

  lemma PlateTotals()
    ensures Total([Subscore(1.0, 0.2, Measured), Subscore(0.0, 0.8, Excluded)]) == 1.0
  {
    var built, gone := Subscore(1.0, 0.2, Measured), Subscore(0.0, 0.8, Excluded);
    TotalIgnores([built], gone, []);
    TotalOfOne(built);
    assert [built] + [gone] + [] == [built, gone] && [built] + [] == [built];
  }

  /** A part that builds, misses its reference entirely and then takes the overlap request down: a total
      of a fifth becomes full marks, with no budget in force. */
  lemma DeadOverlapGains(m: Metrics)
    ensures OverlapDied(PLATE_TASK, PlateFound(m, Iou(0.0)), PlateFound(m, KernelGone), "plate")
    ensures Total(RowsOf(PLATE_TASK, PlateFound(m, Iou(0.0)))) == 0.2
    ensures Total(RowsOf(PLATE_TASK, PlateFound(m, KernelGone))) == 1.0
  {
    PlateRows(m, Iou(0.0));
    PlateRows(m, KernelGone);
    TwoOfSix(Subscore(1.0, 0.2, Measured), Subscore(0.0, 0.8, Measured));
    TwoOfSix(Subscore(1.0, 0.2, Measured), Subscore(0.0, 0.8, Excluded));
    PairTotals();
    PlateTotals();
    assert PlateFound(m, KernelGone).attempts
        == PlateFound(m, Iou(0.0)).attempts["plate" := Succeeded(m, KernelGone)];
  }
}
