/** What a generation run means: the scores as tuples, and why a run ended as it did. */
module GenerationMeaning {
  import opened Options
  import opened GenerationLoop

  // ------------------------------------------------------------ the scores as tuples

  /** The score of a snapshot: valid, checks passed, less the failed, less the distance. */
  function Key(s: Snapshot): seq<real> {
    [if s.valid then 1.0 else 0.0, s.passed as real, -(s.failed as real), -s.distance]
  }

  /** Whether the verdict is green, then the score of what is handed back: invalid and without a check or
      a distance when that is nothing. */
  function Rank(c: GenerationLoop.Result): seq<real> {
    [if c.specGreen then 1.0 else 0.0]
    + match c.best
      case Some(s) => Key(s)
      case None => [0.0, 0.0, 0.0, 0.0]
  }

  /** The tuples agree up to entry `k`, where the first is larger. */
  predicate LargerAt(a: seq<real>, b: seq<real>, k: nat) {
    k < |a| && k < |b| && a[k] > b[k] && forall i :: 0 <= i < k ==> a[i] == b[i]
  }

  ghost predicate Larger(a: seq<real>, b: seq<real>) {
    exists k: nat :: LargerAt(a, b, k)
  }

  /** One snapshot beats another exactly when its tuple is the larger. */
  lemma BeatsIff(a: Snapshot, b: Snapshot)
    ensures Beats(a, b) <==> Larger(Key(a), Key(b))
  {
    var (x, y) := (Key(a), Key(b));
    if Beats(a, b) {
      if a.valid != b.valid {
        assert LargerAt(x, y, 0);
      } else if a.passed != b.passed {
        assert LargerAt(x, y, 1);
      } else if a.failed != b.failed {
        assert LargerAt(x, y, 2);
      } else {
        assert LargerAt(x, y, 3);
      }
    }
    if k: nat :| LargerAt(x, y, k) {
      assert k == 0 || k == 1 || k == 2 || k == 3;
      assert k > 0 ==> x[0] == y[0];
      assert k > 1 ==> x[1] == y[1];
      assert k > 2 ==> x[2] == y[2];
    }
  }

  /** And one candidate outranks another exactly when its tuple is the larger: any green one any that
      is not. */
  lemma OutranksIff(a: GenerationLoop.Result, b: GenerationLoop.Result)
    ensures Outranks(a, b) <==> Larger(Rank(a), Rank(b))
  {
    var (x, y) := (Key(Shown(a)), Key(Shown(b)));
    BeatsIff(Shown(a), Shown(b));
    if a.specGreen != b.specGreen {
      assert a.specGreen ==> LargerAt(Rank(a), Rank(b), 0);
      assert Rank(a)[0] != Rank(b)[0] && (b.specGreen ==> Rank(a)[0] < Rank(b)[0]);
    } else {
      if k: nat :| LargerAt(x, y, k) {
        OneFurther(Rank(a)[0], x, y, k);
      }
      if k: nat :| LargerAt(Rank(a), Rank(b), k) {
        OneNearer(Rank(a)[0], x, y, k);
      }
    }
  }

  lemma OneFurther(head: real, x: seq<real>, y: seq<real>, k: nat)
    requires LargerAt(x, y, k)
    ensures LargerAt([head] + x, [head] + y, k + 1)
  {
  }

  lemma OneNearer(head: real, x: seq<real>, y: seq<real>, k: nat)
    requires LargerAt([head] + x, [head] + y, k)
    ensures k > 0 && LargerAt(x, y, k - 1)
  {
    forall i | 0 <= i < k - 1
      ensures x[i] == y[i]
    {
      assert ([head] + x)[i + 1] == ([head] + y)[i + 1];
    }
  }

  /** The result of a candidate with nothing to show is the lowest there is, but for its verdict. */
  lemma NothingShown(c: GenerationLoop.Result)
    requires c.best.None?
    ensures Key(Shown(c)) == [0.0, 0.0, 0.0, 0.0]
  {
  }

  // ------------------------------------------------------------ why a run ended

  /** Each terminal state, in terms of what the world did. `r.iterations` replies were answered. */
  predicate EndedFor(r: Run, world: nat -> Turn, budget: Budget) {
    match r.terminal
    case None => true
    case Some(BudgetExhausted(WallClock)) => world(r.iterations).expired
    case Some(BudgetExhausted(MaxIterations)) => r.iterations >= budget.maxIterations
    case Some(BudgetExhausted(MaxTokens)) =>
      budget.maxTokens.Some? && Spent(world, r.iterations) >= budget.maxTokens.value
    case Some(BudgetExhausted(ModelEnded)) => r.iterations > 0 && world(r.iterations - 1).act == Ends
    case Some(BudgetExhausted(HardCap)) => r.iterations == 40
    case Some(BuildErrors) =>
      r.iterations > 0 && var look := LookAt(world(r.iterations - 1)); look.Some? && !look.value.valid
    case Some(SpecGreen) =>
      r.iterations > 0 && var look := LookAt(world(r.iterations - 1));
      look.Some? && look.value.valid && look.value.green && look.value.frozen
    case Some(Crashed) =>
      world(r.iterations).act == Unanswered || (r.iterations > 0 && world(r.iterations - 1).act == Dies)
  }

  /** What was measured of the script a round wrote, if it wrote one. */
  function LookAt(turn: Turn): Option<Snapshot> {
    if turn.act.Calls? then turn.act.look else None
  }

  /** The snapshots the first `n` replies led to. */
  function Looks(world: nat -> Turn, n: nat): seq<Snapshot> {
    if n == 0 then []
    else
      var look := LookAt(world(n - 1));
      Looks(world, n - 1) + if look.Some? then [look.value] else []
  }

  predicate Tallied(r: Run, world: nat -> Turn) {
    r.tokens == Spent(world, r.iterations) && r.measured == Looks(world, r.iterations)
  }

  lemma LookTallied(r: Run, paid: Run, world: nat -> Turn)
    requires Tallied(r, world) && paid == Paid(r, world(r.iterations).tokens)
    ensures paid.tokens == Spent(world, paid.iterations)
    ensures paid.measured + (var look := LookAt(world(r.iterations)); if look.Some? then [look.value] else [])
      == Looks(world, paid.iterations)
  {
  }

  lemma NextTallied(r: Run, world: nat -> Turn, budget: Budget)
    requires Tallied(r, world) && r.terminal.None? && r.iterations < HARD_CAP
    ensures Tallied(Next(r, world(r.iterations), budget), world)
  {
    var turn := world(r.iterations);
    LookTallied(r, Paid(r, turn.tokens), world);
    if Refusal(r, budget, turn.expired).None? && LookAt(turn).None? {
      assert r.measured + [] == r.measured;
    }
  }

  lemma NextEndedFor(r: Run, world: nat -> Turn, budget: Budget)
    requires Tallied(r, world) && r.terminal.None? && r.iterations < HARD_CAP
    ensures EndedFor(Next(r, world(r.iterations), budget), world, budget)
    ensures Next(r, world(r.iterations), budget).terminal.None? ==>
      Next(r, world(r.iterations), budget).iterations < HARD_CAP
  {
  }

  lemma {:induction false} LoopEndedFor(r: Run, world: nat -> Turn, budget: Budget)
    requires Tallied(r, world) && EndedFor(r, world, budget) && (r.terminal.None? ==> r.iterations < HARD_CAP)
    ensures var end := Loop(r, world, budget); Tallied(end, world) && EndedFor(end, world, budget)
    decreases HARD_CAP - r.iterations, r.terminal.None?
  {
    if r.terminal.None? {
      NextTallied(r, world, budget);
      NextEndedFor(r, world, budget);
      LoopEndedFor(Next(r, world(r.iterations), budget), world, budget);
    }
  }

  /** Every run ends for the reason it gives, after measuring exactly the scripts its replies wrote, in
      order, and paying for exactly the replies it got. */
  lemma RunMeans(world: nat -> Turn, budget: Budget)
    ensures var end := Generate(world, budget);
      && end.terminal.Some? && EndedFor(end, world, budget)
      && end.measured == Looks(world, end.iterations) && end.tokens == Spent(world, end.iterations)
  {
    LoopEndedFor(START, world, budget);
  }

  /** A reply that ends the loop is the last one, and the run says so. */
  predicate HeededAt(r: Run, world: nat -> Turn, k: nat) {
    match world(k).act
    case Unanswered => false
    case Ends => k == r.iterations - 1 && r.terminal == Some(BudgetExhausted(ModelEnded))
    case Dies => k == r.iterations - 1 && r.terminal == Some(Crashed)
    case Calls(None) => true
    case Calls(Some(s)) =>
      s.valid && s.green && s.frozen ==> k == r.iterations - 1 && r.terminal == Some(SpecGreen)
  }

  ghost predicate Heeded(r: Run, world: nat -> Turn) {
    forall k: nat :: k < r.iterations ==> HeededAt(r, world, k)
  }

  lemma HeededLater(r: Run, n: Run, world: nat -> Turn, k: nat)
    requires r.terminal.None? && HeededAt(r, world, k)
    ensures HeededAt(n, world, k)
  {
  }

  lemma NextHeeded(r: Run, world: nat -> Turn, budget: Budget)
    requires Heeded(r, world) && r.terminal.None? && r.iterations < HARD_CAP
    ensures Heeded(Next(r, world(r.iterations), budget), world)
  {
    var n := Next(r, world(r.iterations), budget);
    forall k: nat | k < n.iterations
      ensures HeededAt(n, world, k)
    {
      if k < r.iterations {
        HeededLater(r, n, world, k);
      }
    }
  }

  lemma {:induction false} LoopHeeded(r: Run, world: nat -> Turn, budget: Budget)
    requires Heeded(r, world) && Tallied(r, world) && EndedFor(r, world, budget)
    requires r.terminal.None? ==> r.iterations < HARD_CAP
    ensures Heeded(Loop(r, world, budget), world)
    decreases HARD_CAP - r.iterations, r.terminal.None?
  {
    if r.terminal.None? {
      NextTallied(r, world, budget);
      NextEndedFor(r, world, budget);
      NextHeeded(r, world, budget);
      LoopHeeded(Next(r, world(r.iterations), budget), world, budget);
    }
  }

  /** And no run goes on past a reason to end: a reply without calls, one that dies, and a script that
      wins are each the last thing that happens. */
  lemma EndsAtOnce(world: nat -> Turn, budget: Budget)
    ensures Heeded(Generate(world, budget), world)
  {
    LoopHeeded(START, world, budget);
  }

  /** At most forty model calls, and none beyond the iterations allowed. */
  lemma CallsAtMost(world: nat -> Turn, budget: Budget)
    ensures Generate(world, budget).calls <= 40
    ensures Generate(world, budget).calls > 0 ==> Generate(world, budget).calls <= budget.maxIterations
  {
    CallsWithinBudget(world, budget);
  }

  /** A run is green exactly when the last script measured was valid, green by its own checks and met the
      frozen contract. */
  lemma GreenMeans(world: nat -> Turn, budget: Budget)
    ensures var (end, n) := (Generate(world, budget), |Generate(world, budget).measured|);
      end.terminal == Some(SpecGreen) <==>
      n > 0 && end.measured[n - 1].valid && end.measured[n - 1].green && end.measured[n - 1].frozen
  {
    GreenIff(world, budget);
  }

  /** What is kept has the largest tuple of all that were measured, and it is the first with it. */
  lemma KeptMeans(world: nat -> Turn, budget: Budget)
    ensures var end := Generate(world, budget);
      && (end.best.None? <==> end.measured == [])
      && (end.best.Some? ==> exists i :: 0 <= i < |end.measured| && FirstLargest(end.measured, i, end.best.value))
  {
    var end := Generate(world, budget);
    LoopKeeps(START, world, budget);
    if end.measured != [] {
      KeptIsFirstMaximum(world, budget);
      FirstMaximumIsLargest(end.measured, BestIndex(end.measured));
    }
  }

  ghost predicate FirstLargest(m: seq<Snapshot>, i: int, s: Snapshot) {
    && 0 <= i < |m| && m[i] == s
    && (forall j :: 0 <= j < |m| ==> !Larger(Key(m[j]), Key(s)))
    && (forall j :: 0 <= j < i ==> Larger(Key(s), Key(m[j])))
  }

  lemma FirstMaximumIsLargest(m: seq<Snapshot>, i: nat)
    requires i < |m| && FirstMaximum(m, i)
    ensures FirstLargest(m, i, m[i])
  {
    forall j | 0 <= j < |m|
      ensures !Larger(Key(m[j]), Key(m[i]))
      ensures j < i ==> Larger(Key(m[i]), Key(m[j]))
    {
      BeatsIff(m[j], m[i]);
      BeatsIff(m[i], m[j]);
    }
  }
}
