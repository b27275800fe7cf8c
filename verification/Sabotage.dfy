/** What a candidate can gain by breaking its own parts: the six rows of one scoring run, and when a
    part that fails, a check that dies or a budget that runs out raises the total. */
module Sabotage {
  import opened Arith
  import opened Options
  import opened Scoring
  import Interference

  // ------------------------------------------------------------ one scoring run

  /** What the interference check came to. */
  datatype Check = CheckRaised(exc: Exception) | Checked(instances: nat, pairs: nat, skipped: nat)

  /** An assembly that does not resolve is a zero; a dead worker or a timeout leaves the row out. */
  function InterferenceRow(check: Check, weight: real): Subscore {
    if weight == 0.0 then NOT_SCORED
    else match check
      case CheckRaised(exc) => Rated(0.0, weight, if BlamesHarness(exc) then Excluded else Measured)
      case Checked(n, pairs, skipped) => Rated(Interference.InterferenceFraction(n, pairs, skipped), weight, Measured)
  }

  /** Everything the scorer finds out about one submission. */
  datatype Found = Found(attempts: map<string, Attempt>, left: Budget, rubric: SpecRun, injected: seq<string>,
                         check: Check)

  function BuildsOf(found: Found): Builds {
    BuildAll(found.attempts, found.left)
  }

  function SpecsOf(task: Task, found: Found): Subscore {
    SpecsRow(found.rubric, task.partRubrics, task.projectRubric, found.injected, task.weights.specs)
  }

  function InterferenceOf(task: Task, found: Found): Subscore {
    InterferenceRow(found.check, task.weights.interference)
  }

  function RowsOf(task: Task, found: Found): seq<Subscore> {
    Rows(task, BuildsOf(found), SpecsOf(task, found), InterferenceOf(task, found))
  }

  lemma RowsOfWellFormed(task: Task, found: Found)
    requires WeightsValid(task.weights)
    ensures WellFormed([SpecsOf(task, found), InterferenceOf(task, found)]) && WellFormed(RowsOf(task, found))
  {
    RowsWellFormed(task, BuildsOf(found), SpecsOf(task, found), InterferenceOf(task, found));
  }

  // ------------------------------------------------------------ breaking a part

  /** No budget in force, or none that had run out when a part failed. */
  predicate Unspent(left: Budget) {
    forall p :: p in left ==> left[p] > 0.0
  }

  /** The build comes to nothing: the part is missing, refused by its own script or by the kernel,
      hangs, or takes the worker down. */
  predicate Breaks(attempt: Attempt) {
    attempt.Absent? || attempt.Refused? || (attempt.Raised? && !BlamesHarness(attempt.exc))
  }

  /** The same submission but for one part that now fails; what the other two measurements make of
      it, and what is left of the budget, is open. */
  predicate PartBroken(before: Found, after: Found, p: string) {
    && p in before.attempts && p in after.attempts && Breaks(after.attempts[p])
    && after.attempts == before.attempts[p := after.attempts[p]]
    && Unspent(before.left) && Unspent(after.left)
    && OnItsOwn(BuildsOf(before)[p])
  }

  lemma BreakingDestroys(before: Found, after: Found, p: string)
    requires PartBroken(before, after, p)
    ensures BuildsOf(after) == Destroyed(BuildsOf(before), p)
  {
  }

  /** However the build of a part is made to fail while the budget lasts - delete the part, make its
      script raise, hang or take the worker down - that never gains, as long as the rubric and the
      interference check do not come out better for it. (A part that builds and then loses a
      measurement is the subject of `LostMeasurements`.) */
  lemma SabotageNeverPays(task: Task, before: Found, after: Found, p: string)
    requires WeightsValid(task.weights) && PartBroken(before, after, p)
    requires NoBetterRow(SpecsOf(task, after), SpecsOf(task, before))
    requires NoBetterRow(InterferenceOf(task, after), InterferenceOf(task, before))
    ensures Total(RowsOf(task, after)) <= Total(RowsOf(task, before))
  {
    BreakingDestroys(before, after, p);
    RowsOfWellFormed(task, before);
    DestroyingNeverPays(task, BuildsOf(before), p, SpecsOf(task, before), InterferenceOf(task, before),
                        SpecsOf(task, after), InterferenceOf(task, after));
  }

  // ------------------------------------------------------------ taking the interference check down too

  lemma ScaledShare(w: real, whole: real, x: real, y: real)
    requires whole > 0.0
    ensures (w * x - whole * y) / whole == w / whole * x - y
  {
    assert whole * y / whole == y;
    assert w * x / whole == w / whole * x;
  }

  /** What leaving out a row of weight `w` out of `whole` is worth when it lies `below` the total. */
  function WorthOfDrop(w: real, whole: real, below: real): real
    requires whole > 0.0
  {
    w / whole * below
  }

  /** The share of the lost row, times how far it lay below the total, outweighs the loss. */
  predicate DropOutweighs(w: real, whole: real, total: real, value: real, kept: real) {
    whole > 0.0 && WorthOfDrop(w, whole, total - value) > total - kept
  }

  lemma GainOfDrop(w: real, whole: real, before: real, kept: real, v: real, after: real)
    requires 0.0 < w < whole && after * (whole - w) == kept * whole - v * w
    ensures after > before <==> WorthOfDrop(w, whole, before - v) > before - kept
  {
    var x := w * (before - v) - whole * (before - kept);
    assert (after - before) * (whole - w) == x;
    SameSign(after - before, whole - w, x, 1.0);
    ScaledShare(w, whole, before - v, before - kept);
    QuotientSign(x, whole);
  }

  lemma QuotientSign(x: real, whole: real)
    requires whole > 0.0
    ensures x / whole > 0.0 <==> x > 0.0
  {
  }

  /** `after` is a mean without a row of weight `w` and value `v`, `kept` the mean with it. */
  predicate RowLeavesMean(w: real, v: real, rest: real, whole: real, mass: real, massWith: real, after: real,
                          kept: real) {
    && w > 0.0 && rest > 0.0 && whole == rest + w && massWith == mass + v * w
    && after == mass / rest && kept == massWith / whole
  }

  lemma GainIff(w: real, v: real, rest: real, whole: real, mass: real, massWith: real, before: real, after: real,
                kept: real)
    requires RowLeavesMean(w, v, rest, whole, mass, massWith, after, kept)
    ensures after > before <==> DropOutweighs(w, whole, before, v, kept)
  {
    assert after * rest == mass;
    assert kept * whole == massWith;
    GainOfDrop(w, whole, before, kept, v, after);
  }

  lemma RowOut(front: seq<Subscore>, s: Subscore, back: seq<Subscore>, all: seq<Subscore>)
    requires Included(s) && s.weight > 0.0 && IncludedWeight(front + back) > 0.0 && all == front + [s] + back
    ensures RowLeavesMean(s.weight, s.value, IncludedWeight(front + back), IncludedWeight(all), Mass(front + back),
                          Mass(all), Total(front + back), Total(all))
  {
    PoolsAround(front, s, back);
    TotalOfOne(s);
    TotalIsMean(all);
    TotalIsMean(front + back);
  }

  /** Whether a report without the row `s` beats a total of `before`: the share of the row times how
      far it lay below that total must be more than what the rest has lost. */
  lemma LossThenDropPaysIff(front: seq<Subscore>, s: Subscore, back: seq<Subscore>, all: seq<Subscore>, before: real)
    requires Included(s) && s.weight > 0.0 && IncludedWeight(front + back) > 0.0 && all == front + [s] + back
    ensures Total(front + back) > before <==> DropOutweighs(s.weight, IncludedWeight(all), before, s.value, Total(all))
  {
    RowOut(front, s, back, all);
    GainIff(s.weight, s.value, IncludedWeight(front + back), IncludedWeight(all), Mass(front + back), Mass(all), before,
            Total(front + back), Total(all));
  }

  lemma AroundCheck(rows: seq<Subscore>)
    requires |rows| == 6
    ensures rows == rows[..4] + [rows[4]] + rows[5..]
  {
  }

  lemma WellFormedParts(front: seq<Subscore>, s: Subscore, back: seq<Subscore>)
    requires WellFormed(front + [s] + back)
    ensures WellFormed(front + back) && 0.0 <= s.value <= 1.0
  {
    forall x | x in front + back
      ensures x in front + [s] + back
    {
    }
    assert s in front + [s] + back;
  }

  /** The only row with any weight is the total. */
  lemma AloneIsTheTotal(front: seq<Subscore>, s: Subscore, back: seq<Subscore>)
    requires WellFormed(front + [s] + back) && Included(s) && s.weight > 0.0 && IncludedWeight(front + back) == 0.0
    ensures Total(front + [s] + back) == s.value
  {
    WellFormedParts(front, s, back);
    NothingWeighs(front + back);
    PoolsAround(front, s, back);
    TotalOfOne(s);
    SameTotal(front + [s] + back, [s]);
  }

  /** The check answered, or refused over the candidate's own assembly. */
  predicate CheckCounts(task: Task, found: Found) {
    Included(InterferenceOf(task, found)) && task.weights.interference > 0.0
  }

  /** The worker died under the check, or it ran out of time. */
  predicate CheckDied(found: Found) {
    found.check.CheckRaised? && BlamesHarness(found.check.exc)
  }

  lemma WithoutCheck(task: Task, found: Found, answered: Found)
    requires CheckDied(found) && answered == found.(check := answered.check)
    ensures var rows := RowsOf(task, answered); Total(RowsOf(task, found)) == Total(rows[..4] + rows[5..])
  {
    var rows := RowsOf(task, answered);
    AroundCheck(rows);
    AroundCheck(RowsOf(task, found));
    TotalIgnores(rows[..4], InterferenceOf(task, found), rows[5..]);
    assert RowsOf(task, found) == rows[..4] + [InterferenceOf(task, found)] + rows[5..];
  }

  /** Taking the check down pays, all builds being the same, exactly when the check's own score lies
      below the total of the rest. */
  lemma DeadCheckPaysIff(task: Task, answered: Found, dead: Found)
    requires CheckCounts(task, answered) && CheckDied(dead) && answered == dead.(check := answered.check)
    requires var rows := RowsOf(task, answered); IncludedWeight(rows[..4] + rows[5..]) > 0.0
    ensures Total(RowsOf(task, dead)) > Total(RowsOf(task, answered))
      <==> InterferenceOf(task, answered).value < Total(RowsOf(task, dead))
  {
    var rows := RowsOf(task, answered);
    WithoutCheck(task, dead, answered);
    AroundCheck(rows);
    LeavingOneOutPaysIff(rows[..4], rows[4], rows[5..]);
  }

  /** Two reports of six rows with the same fifth row. */
  predicate OnlyTheCheckKept(rows: seq<Subscore>, was: seq<Subscore>) {
    && |rows| == 6 && |was| == 6 && WellFormed(rows) && WellFormed(was) && NoBetter(rows, was)
    && rows[4] == was[4] && Included(was[4]) && was[4].weight > 0.0
  }

  lemma NothingElseCounts(rows: seq<Subscore>, was: seq<Subscore>)
    requires OnlyTheCheckKept(rows, was) && IncludedWeight(rows[..4] + rows[5..]) == 0.0
    ensures 0.0 <= was[4].value == Total(rows) == Total(was)
  {
    SameIncludedWeight(rows, was);
    AroundCheck(rows);
    AroundCheck(was);
    PoolsAround(rows[..4], rows[4], rows[5..]);
    PoolsAround(was[..4], was[4], was[5..]);
    AloneIsTheTotal(rows[..4], rows[4], rows[5..]);
    AloneIsTheTotal(was[..4], was[4], was[5..]);
    assert was[4] in was;
  }

  lemma WeightAround(rows: seq<Subscore>, was: seq<Subscore>)
    requires OnlyTheCheckKept(rows, was)
    ensures IncludedWeight(was) == IncludedWeight(rows) == IncludedWeight(rows[..4] + rows[5..]) + was[4].weight
    ensures IncludedWeight(rows[..4] + rows[5..]) >= 0.0
  {
    SameIncludedWeight(rows, was);
    AroundCheck(rows);
    PoolsAround(rows[..4], rows[4], rows[5..]);
    TotalOfOne(rows[4]);
    WellFormedParts(rows[..4], rows[4], rows[5..]);
  }

  lemma AloneGainsNothing(w: real, v: real)
    requires w > 0.0
    ensures !DropOutweighs(w, w, v, v, v)
  {
    assert w / w * (v - v) == 0.0;
  }

  lemma DropFifthPaysIff(rows: seq<Subscore>, was: seq<Subscore>)
    requires OnlyTheCheckKept(rows, was)
    ensures Total(rows[..4] + rows[5..]) > Total(was)
      <==> DropOutweighs(was[4].weight, IncludedWeight(was), Total(was), was[4].value, Total(rows))
  {
    WeightAround(rows, was);
    AroundCheck(rows);
    if IncludedWeight(rows[..4] + rows[5..]) > 0.0 {
      LossThenDropPaysIff(rows[..4], rows[4], rows[5..], rows, Total(was));
    } else {
      NothingElseCounts(rows, was);
      AloneGainsNothing(was[4].weight, was[4].value);
    }
  }

  lemma OnlyOnePartLost(task: Task, before: Found, answered: Found, p: string)
    requires WeightsValid(task.weights) && PartBroken(before, answered, p) && answered.check == before.check
    requires NoBetterRow(SpecsOf(task, answered), SpecsOf(task, before)) && CheckCounts(task, before)
    ensures OnlyTheCheckKept(RowsOf(task, answered), RowsOf(task, before))
    ensures Total(RowsOf(task, answered)) <= Total(RowsOf(task, before))
  {
    BreakingDestroys(before, answered, p);
    RowsOfWellFormed(task, before);
    RowsOfWellFormed(task, answered);
    DestroyingNeverPays(task, BuildsOf(before), p, SpecsOf(task, before), InterferenceOf(task, before),
                        SpecsOf(task, answered), InterferenceOf(task, answered));
  }

  /** Breaking a part in a way that takes the interference check down with it gains exactly when the
      share of the lost row, times how far that row lay below the total, outweighs what the broken
      part costs in the other rows. */
  lemma CrashPaysIff(task: Task, before: Found, after: Found, p: string)
    requires WeightsValid(task.weights) && PartBroken(before, after, p)
    requires NoBetterRow(SpecsOf(task, after), SpecsOf(task, before))
    requires CheckCounts(task, before) && CheckDied(after)
    ensures var total, answered := Total(RowsOf(task, before)), Total(RowsOf(task, after.(check := before.check)));
      && answered <= total
      && (Total(RowsOf(task, after)) > total <==>
            DropOutweighs(task.weights.interference, IncludedWeight(RowsOf(task, before)), total,
                          InterferenceOf(task, before).value, answered))
  {
    var answered := after.(check := before.check);
    OnlyOnePartLost(task, before, answered, p);
    WithoutCheck(task, after, answered);
    DropFifthPaysIff(RowsOf(task, answered), RowsOf(task, before));
  }

  // ------------------------------------------------------------ deleting a part with its rubric

  /** Two means over the same weight whose masses differ as the value of one row of weight `w` does. */
  predicate MeansApart(x: real, y: real, whole: real, mx: real, my: real, w: real, d: real) {
    whole > 0.0 && x == mx / whole && y == my / whole && mx - my == w * d
  }

  lemma ShareOfGain(x: real, y: real, whole: real, mx: real, my: real, w: real, d: real)
    requires MeansApart(x, y, whole, mx, my, w, d)
    ensures x - y == WorthOfDrop(w, whole, d)
  {
    assert x * whole == mx;
    assert y * whole == my;
    QuotientIs(x - y, whole, w * d);
    assert w * d / whole == w / whole * d;
  }

  lemma WeighTheSame(front: seq<Subscore>, a: Subscore, b: Subscore, back: seq<Subscore>)
    requires Included(a) && Included(b) && a.weight == b.weight
    ensures IncludedWeight(front + [a] + back) == IncludedWeight(front + [b] + back)
  {
    PoolsAround(front, a, back);
    PoolsAround(front, b, back);
    NextWeight([], a);
    NextWeight([], b);
    assert [] + [a] == [a] && [] + [b] == [b];
  }

  lemma MassesApart(a: Subscore, b: Subscore)
    requires Included(a) && Included(b) && a.weight == b.weight
    ensures MassOf(a) - MassOf(b) == a.weight * (a.value - b.value)
  {
  }

  lemma SumsApart(front: seq<Subscore>, a: Subscore, b: Subscore, back: seq<Subscore>)
    requires Included(a) && Included(b) && a.weight == b.weight
    ensures Mass(front + [a] + back) - Mass(front + [b] + back) == a.weight * (a.value - b.value)
  {
    PoolsAround(front, a, back);
    PoolsAround(front, b, back);
    MassesApart(a, b);
  }

  lemma MeansOfTwo(rows: seq<Subscore>, other: seq<Subscore>, whole: real, w: real, d: real)
    requires whole == IncludedWeight(rows) == IncludedWeight(other) && whole > 0.0 && Mass(rows) - Mass(other) == w * d
    ensures MeansApart(Total(rows), Total(other), whole, Mass(rows), Mass(other), w, d)
  {
    TotalIsMean(rows);
    TotalIsMean(other);
  }

  /** Two reports that differ in the value of one row. */
  lemma OneRowApart(front: seq<Subscore>, a: Subscore, b: Subscore, back: seq<Subscore>, whole: real)
    requires Included(a) && Included(b) && a.weight == b.weight
    requires whole == IncludedWeight(front + [b] + back) && whole > 0.0
    ensures Total(front + [a] + back) - Total(front + [b] + back) == WorthOfDrop(a.weight, whole, a.value - b.value)
  {
    var rows, other, d := front + [a] + back, front + [b] + back, a.value - b.value;
    WeighTheSame(front, a, b, back);
    SumsApart(front, a, b, back);
    MeansOfTwo(rows, other, whole, a.weight, d);
    ShareOfGain(Total(rows), Total(other), whole, Mass(rows), Mass(other), a.weight, d);
  }

  /** The same with rows that may both be left out, where the value is nothing. */
  lemma OneRowDiffers(front: seq<Subscore>, a: Subscore, b: Subscore, back: seq<Subscore>, whole: real, w: real)
    requires if Included(a) then Included(b) && a.weight == b.weight == w else a == b
    requires whole == IncludedWeight(front + [b] + back) && whole > 0.0
    ensures IncludedWeight(front + [a] + back) == whole
    ensures Total(front + [a] + back) - Total(front + [b] + back) == WorthOfDrop(w, whole, a.value - b.value)
  {
    if Included(a) {
      WeighTheSame(front, a, b, back);
      OneRowApart(front, a, b, back, whole);
    } else {
      assert w / whole * 0.0 == 0.0;
    }
  }

  /** Both runs of the rubric and both interference checks were measured, or neither was. */
  predicate SameMeasured(task: Task, before: Found, after: Found) {
    && Included(SpecsOf(task, after)) == Included(SpecsOf(task, before))
    && Included(InterferenceOf(task, after)) == Included(InterferenceOf(task, before))
  }

  lemma RowsLeftOutAgree(task: Task, before: Found, after: Found)
    requires SameMeasured(task, before, after)
    ensures var a, b := SpecsOf(task, after), SpecsOf(task, before);
      if Included(a) then a.weight == b.weight == task.weights.specs else a == b
    ensures var a, b := InterferenceOf(task, after), InterferenceOf(task, before);
      if Included(a) then a.weight == b.weight == task.weights.interference else a == b
  {
  }

  lemma SpecsApart(task: Task, after: Found, other: Found, whole: real)
    requires other == after.(rubric := other.rubric, injected := other.injected) && SameMeasured(task, other, after)
    requires whole == IncludedWeight(RowsOf(task, other)) && whole > 0.0
    ensures IncludedWeight(RowsOf(task, after)) == whole
    ensures Total(RowsOf(task, after)) - Total(RowsOf(task, other))
      == WorthOfDrop(task.weights.specs, whole, SpecsOf(task, after).value - SpecsOf(task, other).value)
  {
    var rows, was := RowsOf(task, after), RowsOf(task, other);
    RowsLeftOutAgree(task, other, after);
    assert rows == was[..2] + [rows[2]] + was[3..] && was == was[..2] + [was[2]] + was[3..];
    OneRowDiffers(was[..2], rows[2], was[2], was[3..], whole, task.weights.specs);
  }

  lemma ChecksApart(task: Task, after: Found, other: Found, whole: real)
    requires other == after.(check := other.check) && SameMeasured(task, other, after)
    requires whole == IncludedWeight(RowsOf(task, other)) && whole > 0.0
    ensures IncludedWeight(RowsOf(task, after)) == whole
    ensures var d := InterferenceOf(task, after).value - InterferenceOf(task, other).value;
      Total(RowsOf(task, after)) - Total(RowsOf(task, other)) == WorthOfDrop(task.weights.interference, whole, d)
  {
    var rows, was := RowsOf(task, after), RowsOf(task, other);
    RowsLeftOutAgree(task, other, after);
    AroundCheck(was);
    assert rows == was[..4] + [rows[4]] + was[5..];
    OneRowDiffers(was[..4], rows[4], was[4], was[5..], whole, task.weights.interference);
  }

  /** What the other two rows gain, each at its share of the weight. */
  function GainOfOthers(task: Task, before: Found, after: Found, whole: real): real
    requires whole > 0.0
  {
    var specs := SpecsOf(task, after).value - SpecsOf(task, before).value;
    var check := InterferenceOf(task, after).value - InterferenceOf(task, before).value;
    WorthOfDrop(task.weights.specs, whole, specs) + WorthOfDrop(task.weights.interference, whole, check)
  }

  predicate GainsOutweigh(task: Task, before: Found, after: Found, whole: real, cost: real) {
    whole > 0.0 && GainOfOthers(task, before, after, whole) > cost
  }

  /** What was found, but for the part that broke. */
  function Steady(before: Found, after: Found): Found {
    after.(rubric := before.rubric, injected := before.injected, check := before.check)
  }

  lemma BothApart(task: Task, before: Found, after: Found, steady: Found, whole: real)
    requires steady == Steady(before, after)
    requires SameMeasured(task, before, after) && whole == IncludedWeight(RowsOf(task, steady)) && whole > 0.0
    ensures Total(RowsOf(task, after)) - Total(RowsOf(task, steady)) == GainOfOthers(task, before, after, whole)
  {
    var middle := after.(check := before.check);
    SpecsApart(task, middle, steady, whole);
    ChecksApart(task, after, middle, whole);
  }

  lemma SteadyIsNoBetter(task: Task, before: Found, after: Found, p: string)
    requires WeightsValid(task.weights) && PartBroken(before, after, p)
    ensures Total(RowsOf(task, Steady(before, after))) <= Total(RowsOf(task, before))
    ensures IncludedWeight(RowsOf(task, Steady(before, after))) == IncludedWeight(RowsOf(task, before)) >= 0.0
  {
    var steady := Steady(before, after);
    BreakingDestroys(before, steady, p);
    RowsOfWellFormed(task, before);
    DestroyingNeverPays(task, BuildsOf(before), p, SpecsOf(task, before), InterferenceOf(task, before),
                        SpecsOf(task, steady), InterferenceOf(task, steady));
    SameIncludedWeight(RowsOf(task, steady), RowsOf(task, before));
  }

  /** Breaking a part - deleting it with its script, say - gains exactly when what the rubric's row and
      the interference row gain by it outweighs what the broken part costs with both as they were. When
      deleting a part lifts the rubric's row, `Scoring.DeletedRubricPaysIff` says; when a row is left
      out instead, `LostMeasurements.SabotagePaysIff`. */
  lemma BrokenPartPaysIff(task: Task, before: Found, after: Found, p: string)
    requires WeightsValid(task.weights) && PartBroken(before, after, p) && SameMeasured(task, before, after)
    ensures var total, kept := Total(RowsOf(task, before)), Total(RowsOf(task, Steady(before, after)));
      && kept <= total
      && (Total(RowsOf(task, after)) > total <==>
            GainsOutweigh(task, before, after, IncludedWeight(RowsOf(task, before)), total - kept))
  {
    var whole := IncludedWeight(RowsOf(task, before));
    SteadyIsNoBetter(task, before, after, p);
    if whole > 0.0 {
      BothApart(task, before, after, Steady(before, after), whole);
    } else {
      RowsOfWellFormed(task, before);
      TotalInUnit(RowsOf(task, before));
      BrokenWeighsTheSame(task, before, after, p);
    }
  }

  predicate SameInclusion(a: Subscore, b: Subscore) {
    Included(a) == Included(b) && (Included(a) ==> a.weight == b.weight)
  }

  lemma {:induction false} SameInclusionWeighs(a: seq<Subscore>, b: seq<Subscore>)
    requires |a| == |b| && forall i :: 0 <= i < |a| ==> SameInclusion(a[i], b[i])
    ensures IncludedWeight(a) == IncludedWeight(b)
  {
    if a != [] {
      SameInclusionWeighs(a[..|a| - 1], b[..|b| - 1]);
    }
  }

  lemma BrokenWeighsTheSame(task: Task, before: Found, after: Found, p: string)
    requires WeightsValid(task.weights) && PartBroken(before, after, p) && SameMeasured(task, before, after)
    ensures IncludedWeight(RowsOf(task, after)) == IncludedWeight(RowsOf(task, before))
  {
    SteadyIsNoBetter(task, before, after, p);
    RowsLeftOutAgree(task, before, after);
    SameInclusionWeighs(RowsOf(task, after), RowsOf(task, Steady(before, after)));
  }

  // ------------------------------------------------------------ an example

  /** Two parts that build, an assembly in which they overlap; `built` weighs a fifth. */
  const PAIR_TASK := Task(["a", "b"], Weights(0.2, 0.0, 0.0, 0.0, 0.8, 0.0), {}, None, false, false)

  function PairFound(a: Attempt, b: Attempt, check: Check): Found {
    Found(map["a" := a, "b" := b], map[], NoRunner, [], check)
  }

  lemma TwoRows(built: Subscore, interference: Subscore)
    ensures Total([built, NOT_SCORED, NOT_SCORED, NOT_SCORED, interference, NOT_SCORED]) == Total([built, interference])
  {
    calc {
      Total([built, NOT_SCORED, NOT_SCORED, NOT_SCORED, interference, NOT_SCORED]);
      { TotalIgnores([built], NOT_SCORED, [NOT_SCORED, NOT_SCORED, interference, NOT_SCORED]);
        assert [built] + [NOT_SCORED] + [NOT_SCORED, NOT_SCORED, interference, NOT_SCORED]
            == [built, NOT_SCORED, NOT_SCORED, NOT_SCORED, interference, NOT_SCORED]; }
      Total([built] + [NOT_SCORED, NOT_SCORED, interference, NOT_SCORED]);
      { TotalIgnores([built], NOT_SCORED, [NOT_SCORED, interference, NOT_SCORED]);
        assert [built] + [NOT_SCORED, NOT_SCORED, interference, NOT_SCORED]
            == [built] + [NOT_SCORED] + [NOT_SCORED, interference, NOT_SCORED]; }
      Total([built] + [NOT_SCORED, interference, NOT_SCORED]);
      { TotalIgnores([built], NOT_SCORED, [interference, NOT_SCORED]);
        assert [built] + [NOT_SCORED, interference, NOT_SCORED]
          == [built] + [NOT_SCORED] + [interference, NOT_SCORED]; }
      Total([built] + [interference, NOT_SCORED]);
      { TotalIgnores([built, interference], NOT_SCORED, []);
        assert [built] + [interference, NOT_SCORED] == [built, interference] + [NOT_SCORED] + []; }
      Total([built, interference] + []);
      { assert [built, interference] + [] == [built, interference]; }
      Total([built, interference]);
    }
  }

  lemma PairBuilds(a: Attempt, b: Attempt, check: Check)
    requires a.Succeeded? && (b.Succeeded? || b == Refused(Crash))
    ensures BuiltRow(BuildsOf(PairFound(a, b, check)), 2, 0.2)
      == Subscore(if b.Succeeded? then 1.0 else 0.5, 0.2, Measured)
  {
    var builds := BuildsOf(PairFound(a, b, check));
    assert FailedParts(builds) == if b.Succeeded? then {} else {"b"};
    assert builds["a"].Built? && builds["b"] != HarnessError;
  }

  lemma PairRows(a: Attempt, b: Attempt, check: Check)
    ensures var found := PairFound(a, b, check);
      Total(RowsOf(PAIR_TASK, found)) == Total([BuiltRow(BuildsOf(found), 2, 0.2), InterferenceRow(check, 0.8)])
  {
    var found := PairFound(a, b, check);
    TwoRows(BuiltRow(BuildsOf(found), 2, 0.2), InterferenceRow(check, 0.8));
  }

  lemma PairTotals()
    ensures Total([Subscore(1.0, 0.2, Measured), Subscore(0.0, 0.8, Measured)]) == 0.2
    ensures Total([Subscore(0.5, 0.2, Measured), Subscore(0.0, 0.8, Excluded)]) == 0.5
  {
    var built, check := Subscore(1.0, 0.2, Measured), Subscore(0.0, 0.8, Measured);
    NextWeight([], built);
    NextMass([], built);
    NextWeight([built], check);
    NextMass([built], check);
    assert [] + [built] == [built] && [built] + [check] == [built, check];
    TotalIsMean([built, check]);
    var half, gone := Subscore(0.5, 0.2, Measured), Subscore(0.0, 0.8, Excluded);
    TotalIgnores([half], gone, []);
    TotalOfOne(half);
    assert [half] + [gone] + [] == [half, gone] && [half] + [] == [half];
  }

  lemma HonestTotal(ok: Attempt)
    requires ok.Succeeded?
    ensures Total(RowsOf(PAIR_TASK, PairFound(ok, ok, Checked(2, 1, 0)))) == 0.2
  {
    PairBuilds(ok, ok, Checked(2, 1, 0));
    PairRows(ok, ok, Checked(2, 1, 0));
    assert InterferenceRow(Checked(2, 1, 0), 0.8) == Subscore(0.0, 0.8, Measured);
    PairTotals();
  }

  /** One reliable crasher lifts a total of a fifth to a half, with no budget in force. */
  lemma CrashGains(ok: Attempt)
    requires ok.Succeeded?
    ensures Total(RowsOf(PAIR_TASK, PairFound(ok, ok, Checked(2, 1, 0)))) == 0.2
    ensures Total(RowsOf(PAIR_TASK, PairFound(ok, Refused(Crash), CheckRaised(KernelError(Crash))))) == 0.5
  {
    HonestTotal(ok);
    PairBuilds(ok, Refused(Crash), CheckRaised(KernelError(Crash)));
    PairRows(ok, Refused(Crash), CheckRaised(KernelError(Crash)));
    PairTotals();
  }

  // ------------------------------------------------------------ a budget that runs out

  /** Every part came to the same, or to a failure of ours. */
  predicate Truncated(before: Builds, after: Builds) {
    before.Keys == after.Keys && forall p :: p in after ==> after[p] == before[p] || after[p] == HarnessError
  }

  predicate GeometryCut(task: Task, builds: Builds) {
    exists i :: 0 <= i < |task.targets| && task.targets[i] in task.references
      && BuildOf(builds, task.targets[i]) == HarnessError
  }

  predicate MetricsCut(task: Task, builds: Builds) {
    task.windows.Some? && WindowBroken(task.windows.value, builds)
  }

  /** Which of the six rows read a build that failed by our fault. */
  function Cut(task: Task, builds: Builds): (cut: seq<bool>)
    ensures |cut| == 6
  {
    [Broken(builds), Broken(builds), false, GeometryCut(task, builds), false, MetricsCut(task, builds)]
  }

  /** The rows that are cut, or those that are not. */
  function Where(rows: seq<Subscore>, cut: seq<bool>, which: bool): seq<Subscore>
    requires |rows| == |cut|
  {
    if rows == [] then []
    else
      var n := |rows| - 1;
      Where(rows[..n], cut[..n], which) + if cut[n] == which then [rows[n]] else []
  }

  lemma {:induction false} WherePools(rows: seq<Subscore>, cut: seq<bool>)
    requires |rows| == |cut|
    ensures Pools(rows, Where(rows, cut, false), Where(rows, cut, true))
  {
    if rows != [] {
      var n := |rows| - 1;
      WherePools(rows[..n], cut[..n]);
      NextWeight(Where(rows[..n], cut[..n], cut[n]), rows[n]);
      NextMass(Where(rows[..n], cut[..n], cut[n]), rows[n]);
      assert Where(rows[..n], cut[..n], !cut[n]) + [] == Where(rows[..n], cut[..n], !cut[n]);
    }
  }

  lemma {:induction false} WhereWellFormed(rows: seq<Subscore>, cut: seq<bool>, which: bool)
    requires |rows| == |cut| && WellFormed(rows)
    ensures WellFormed(Where(rows, cut, which))
  {
    if rows != [] {
      var n := |rows| - 1;
      assert rows[n] in rows;
      assert forall s :: s in rows[..n] ==> s in rows;
      WhereWellFormed(rows[..n], cut[..n], which);
    }
  }

  /** The cut rows are left out, the others are as they were. */
  predicate CutFrom(after: seq<Subscore>, rows: seq<Subscore>, cut: seq<bool>) {
    && |after| == |rows| == |cut|
    && forall i :: 0 <= i < |rows| ==> if cut[i] then !Included(after[i]) else after[i] == rows[i]
  }

  lemma SumsOfNext(front: seq<Subscore>, row: Subscore, sums: seq<Subscore>)
    requires IncludedWeight(front) == IncludedWeight(sums) && Mass(front) == Mass(sums)
    ensures !Included(row) ==>
      IncludedWeight(front + [row]) == IncludedWeight(sums) && Mass(front + [row]) == Mass(sums)
    ensures IncludedWeight(front + [row]) == IncludedWeight(sums + [row]) && Mass(front + [row]) == Mass(sums + [row])
  {
    NextWeight(front, row);
    NextMass(front, row);
    NextWeight(sums, row);
    NextMass(sums, row);
  }

  lemma {:induction false} CutSums(after: seq<Subscore>, rows: seq<Subscore>, cut: seq<bool>)
    requires CutFrom(after, rows, cut)
    ensures IncludedWeight(after) == IncludedWeight(Where(rows, cut, false))
    ensures Mass(after) == Mass(Where(rows, cut, false))
  {
    if rows != [] {
      var n := |rows| - 1;
      var kept := Where(rows[..n], cut[..n], false);
      CutSums(after[..n], rows[..n], cut[..n]);
      SumsOfNext(after[..n], after[n], kept);
      assert after == after[..n] + [after[n]];
      assert kept + [] == kept;
    }
  }

  lemma CutRowsPayIff(after: seq<Subscore>, rows: seq<Subscore>, cut: seq<bool>)
    requires CutFrom(after, rows, cut) && WellFormed(rows)
    ensures var dropped, kept := Where(rows, cut, true), Where(rows, cut, false);
      && Total(after) == Total(kept)
      && (Total(after) > Total(rows) <==> IncludedWeight(dropped) > 0.0 && Total(dropped) < Total(kept))
  {
    CutSums(after, rows, cut);
    SameTotal(after, Where(rows, cut, false));
    WherePools(rows, cut);
    WhereWellFormed(rows, cut, true);
    WhereWellFormed(rows, cut, false);
    LeavingOutPaysIff(rows, Where(rows, cut, false), Where(rows, cut, true));
  }

  lemma SameBuild(before: Builds, after: Builds, p: string)
    requires Truncated(before, after)
    ensures BuildOf(after, p) == BuildOf(before, p) || BuildOf(after, p) == HarnessError
  {
    assert p in before <==> p in after by {
      assert p in before.Keys <==> p in after.Keys;
    }
  }

  lemma {:induction false} SameGeometry(parts: seq<string>, before: Builds, after: Builds, references: set<string>)
    requires forall i :: 0 <= i < |parts| && parts[i] in references ==>
      BuildOf(after, parts[i]) == BuildOf(before, parts[i])
    ensures AnyUnread(parts, after, references) == AnyUnread(parts, before, references)
    ensures IouSum(parts, after, references) == IouSum(parts, before, references)
  {
    if parts != [] {
      SameGeometry(parts[..|parts| - 1], before, after, references);
    }
  }

  lemma {:induction false} SamePassed(windows: seq<Window>, before: Builds, after: Builds)
    requires forall i :: 0 <= i < |windows| ==> BuildOf(after, windows[i].part) == BuildOf(before, windows[i].part)
    ensures Passed(windows, after) == Passed(windows, before)
  {
    if windows != [] {
      SamePassed(windows[..|windows| - 1], before, after);
    }
  }

  lemma BuiltCut(before: Builds, after: Builds, n: nat, weight: real)
    requires Truncated(before, after)
    ensures if Broken(after) then !Included(BuiltRow(after, n, weight))
      else BuiltRow(after, n, weight) == BuiltRow(before, n, weight)
    ensures if Broken(after) then !Included(ValidRow(after, n, weight))
      else ValidRow(after, n, weight) == ValidRow(before, n, weight)
  {
    if !Broken(after) {
      assert after == before;
    }
  }

  lemma GeometryIsCut(task: Task, before: Builds, after: Builds)
    requires Truncated(before, after)
    ensures var row := GeometryRow(task.targets, after, task.references, task.weights.geometry);
      if GeometryCut(task, after) then !Included(row)
      else row == GeometryRow(task.targets, before, task.references, task.weights.geometry)
  {
    if GeometryCut(task, after) {
      var i :| 0 <= i < |task.targets| && task.targets[i] in task.references
        && BuildOf(after, task.targets[i]) == HarnessError;
      UnreadSomewhere(task.targets, i, after, task.references);
    } else {
      forall i | 0 <= i < |task.targets| && task.targets[i] in task.references
        ensures BuildOf(after, task.targets[i]) == BuildOf(before, task.targets[i])
      {
        SameBuild(before, after, task.targets[i]);
      }
      SameGeometry(task.targets, before, after, task.references);
      SameMeshes(task.targets, before, after, task.references);
    }
  }

  lemma SameMeshes(parts: seq<string>, before: Builds, after: Builds, references: set<string>)
    requires forall i :: 0 <= i < |parts| && parts[i] in references ==>
      BuildOf(after, parts[i]) == BuildOf(before, parts[i])
    ensures AllMesh(parts, after, references) == AllMesh(parts, before, references)
  {
    forall p | p in parts
      ensures IsMesh(p, after, references) == IsMesh(p, before, references)
    {
      var i :| 0 <= i < |parts| && parts[i] == p;
    }
  }

  lemma MetricsAreCut(task: Task, before: Builds, after: Builds)
    requires Truncated(before, after)
    ensures var row := MetricsRow(task.windows, after, task.weights.metrics);
      if MetricsCut(task, after) then !Included(row) else row == MetricsRow(task.windows, before, task.weights.metrics)
  {
    if task.windows.Some? && !MetricsCut(task, after) {
      var windows := task.windows.value;
      forall i | 0 <= i < |windows|
        ensures BuildOf(after, windows[i].part) == BuildOf(before, windows[i].part)
      {
        assert windows[i] in windows;
        SameBuild(before, after, windows[i].part);
      }
      SamePassed(windows, before, after);
    }
  }

  /** Our budget running out on some builds leaves out exactly the rows that read one of them, the
      other rows being what they were; that is a gain exactly when those rows weigh something and
      scored less together than the rest. */
  lemma SpentBudgetPaysIff(task: Task, before: Found, after: Found)
    requires WeightsValid(task.weights) && Truncated(BuildsOf(before), BuildsOf(after))
    requires SpecsOf(task, after) == SpecsOf(task, before)
    requires InterferenceOf(task, after) == InterferenceOf(task, before)
    ensures var cut := Cut(task, BuildsOf(after));
      var dropped, kept := Where(RowsOf(task, before), cut, true), Where(RowsOf(task, before), cut, false);
      && Total(RowsOf(task, after)) == Total(kept)
      && (Total(RowsOf(task, after)) > Total(RowsOf(task, before)) <==>
            IncludedWeight(dropped) > 0.0 && Total(dropped) < Total(kept))
  {
    RowsOfWellFormed(task, before);
    CutRows(task, before, after);
    CutRowsPayIff(RowsOf(task, after), RowsOf(task, before), Cut(task, BuildsOf(after)));
  }

  lemma CutRows(task: Task, before: Found, after: Found)
    requires Truncated(BuildsOf(before), BuildsOf(after))
    requires SpecsOf(task, after) == SpecsOf(task, before)
    requires InterferenceOf(task, after) == InterferenceOf(task, before)
    ensures CutFrom(RowsOf(task, after), RowsOf(task, before), Cut(task, BuildsOf(after)))
  {
    var b, a := BuildsOf(before), BuildsOf(after);
    BuiltCut(b, a, |task.targets|, task.weights.built);
    BuiltCut(b, a, |task.targets|, task.weights.valid);
    GeometryIsCut(task, b, a);
    MetricsAreCut(task, b, a);
  }

  /** A crash or a hang with the budget spent is such a truncation, whatever the part did before. */
  lemma CrashTruncates(before: Found, after: Found, p: string, kind: ErrorKind)
    requires p in before.attempts && (kind == Timeout || kind == Crash)
    requires after.attempts == before.attempts[p := Refused(kind)]
    requires p in after.left && after.left[p] <= 0.0 && after.left == before.left[p := after.left[p]]
    ensures Truncated(BuildsOf(before), BuildsOf(after)) && BuildsOf(after)[p] == HarnessError
    ensures Broken(BuildsOf(after))
  {
    assert after.attempts.Keys == before.attempts.Keys;
    assert p in BuildsOf(after);
  }

  lemma NextWhere(front: seq<Subscore>, row: Subscore, cut: seq<bool>, c: bool, which: bool)
    requires |front| == |cut|
    ensures Where(front + [row], cut + [c], which) == Where(front, cut, which) + if c == which then [row] else []
  {
    assert (front + [row])[..|front|] == front && (cut + [c])[..|cut|] == cut;
  }

  function If(row: Subscore, c: bool, which: bool): seq<Subscore> {
    if c == which then [row] else []
  }

  lemma NextThree(front: seq<Subscore>, a: Subscore, b: Subscore, c: Subscore, cut: seq<bool>, x: bool, y: bool,
                  z: bool, which: bool)
    requires |front| == |cut|
    ensures Where(front + [a, b, c], cut + [x, y, z], which)
      == Where(front, cut, which) + If(a, x, which) + If(b, y, which) + If(c, z, which)
  {
    NextWhere(front, a, cut, x, which);
    NextWhere(front + [a], b, cut + [x], y, which);
    NextWhere(front + [a] + [b], c, cut + [x] + [y], z, which);
    assert front + [a] + [b] + [c] == front + [a, b, c] && cut + [x] + [y] + [z] == cut + [x, y, z];
  }

  lemma WhereTwo(a: Subscore, b: Subscore, s: Subscore, c: Subscore, i: Subscore, d: Subscore, which: bool)
    ensures Where([a, b, s] + [c, i, d], [true, true, false] + [true, false, true], which)
      == if which then [a, b, c, d] else [s, i]
  {
    NextThree([], a, b, s, [], true, true, false, which);
    NextThree([a, b, s], c, i, d, [true, true, false], true, false, true, which);
    assert [] + [a, b, s] == [a, b, s] && [] + [true, true, false] == [true, true, false];
  }

  /** A part that every row read leaves the total to the other two, however low they made it before. */
  lemma SpentBudgetLeavesTwoRows(task: Task, before: Found, after: Found, p: string, kind: ErrorKind)
    requires WeightsValid(task.weights) && p in before.attempts && (kind == Timeout || kind == Crash)
    requires after.attempts == before.attempts[p := Refused(kind)]
    requires p in after.left && after.left[p] <= 0.0 && after.left == before.left[p := after.left[p]]
    requires SpecsOf(task, after) == SpecsOf(task, before)
    requires InterferenceOf(task, after) == InterferenceOf(task, before)
    requires p in task.targets && p in task.references
    requires task.windows.Some? && exists w :: w in task.windows.value && w.part == p
    ensures var r := RowsOf(task, before);
      var four, two := [r[0], r[1], r[3], r[5]], [r[2], r[4]];
      && Total(RowsOf(task, after)) == Total(two)
      && (Total(RowsOf(task, after)) > Total(r) <==> IncludedWeight(four) > 0.0 && Total(four) < Total(two))
  {
    CrashTruncates(before, after, p, kind);
    SpentBudgetPaysIff(task, before, after);
    EverythingCut(task, BuildsOf(after), p);
    SixRowsCut(RowsOf(task, before), Cut(task, BuildsOf(after)));
  }

  lemma SixRowsCut(r: seq<Subscore>, cut: seq<bool>)
    requires |r| == 6 && cut == [true, true, false, true, false, true]
    ensures Where(r, cut, true) == [r[0], r[1], r[3], r[5]] && Where(r, cut, false) == [r[2], r[4]]
  {
    WhereTwo(r[0], r[1], r[2], r[3], r[4], r[5], true);
    WhereTwo(r[0], r[1], r[2], r[3], r[4], r[5], false);
    assert r == [r[0], r[1], r[2]] + [r[3], r[4], r[5]] && cut == [true, true, false] + [true, false, true];
  }

  lemma EverythingCut(task: Task, builds: Builds, p: string)
    requires p in builds && builds[p] == HarnessError && p in task.targets && p in task.references
    requires task.windows.Some? && exists w :: w in task.windows.value && w.part == p
    ensures Cut(task, builds) == [true, true, false, true, false, true]
  {
    var i :| 0 <= i < |task.targets| && task.targets[i] == p;
    assert BuildOf(builds, task.targets[i]) == HarnessError;
  }
}
