/** One generation candidate: the budgeted client, the loop to a terminal state, best-so-far, and
    the choice among candidates. */
module GenerationLoop {
  import opened Integers
  import opened Options

  const ABANDON_AFTER := 3
  const HARD_CAP := 40

  datatype Budget = Budget(maxIterations: int, maxTokens: Option<int>)

  /** What the mechanical look measured after a round that wrote the script. `frozen` is the
      server's own verdict, asked for only when the part is valid and its own specs are green. */
  datatype Snapshot = Snapshot(script: string, valid: bool, green: bool, passed: int, failed: int, distance: real,
                               frozen: bool)

  /** A round ends the run, dies on an exception, or calls tools; when a tool wrote the script the
      part is looked at. */
  datatype Act = Unanswered | Ends | Dies | Calls(look: Option<Snapshot>)

  /** The n-th time round: whether the deadline has passed, and the model's reply with its cost. */
  datatype Turn = Turn(expired: bool, tokens: nat, act: Act)

  datatype Reason = WallClock | MaxIterations | MaxTokens | ModelEnded | HardCap

  datatype Terminal = BudgetExhausted(reason: Reason) | BuildErrors | Crashed | SpecGreen

  datatype Run = Run(iterations: nat, tokens: int, calls: nat, errors: nat, measured: seq<Snapshot>,
                     best: Option<Snapshot>, terminal: Option<Terminal>)

  const START := Run(0, 0, 0, 0, [], None, None)

  // ------------------------------------------------------------ scores

  predicate FrozenOk(s: Snapshot) {
    s.valid && s.green && s.frozen
  }

  /** The strict lexicographic order on (valid, passed, -failed, -distance). */
  predicate Beats(a: Snapshot, b: Snapshot) {
    if a.valid != b.valid then a.valid
    else if a.passed != b.passed then a.passed > b.passed
    else if a.failed != b.failed then a.failed < b.failed
    else a.distance < b.distance
  }

  function Consider(best: Option<Snapshot>, s: Snapshot): Option<Snapshot> {
    if best.None? || Beats(s, best.value) then Some(s) else best
  }

  // ------------------------------------------------------------ the loop

  function Refusal(r: Run, budget: Budget, expired: bool): Option<Reason> {
    if expired then Some(WallClock)
    else if r.iterations >= budget.maxIterations then Some(MaxIterations)
    else if budget.maxTokens.Some? && r.tokens >= budget.maxTokens.value then Some(MaxTokens)
    else None
  }

  /** What a look at a fresh script leads to. */
  function Looked(r: Run, s: Snapshot): Run {
    var seen := r.(measured := r.measured + [s], best := Consider(r.best, s));
    if !s.valid then
      seen.(errors := r.errors + 1, terminal := if r.errors + 1 >= ABANDON_AFTER then Some(BuildErrors) else None)
    else
      seen.(errors := 0, terminal := if FrozenOk(s) then Some(SpecGreen) else None)
  }

  function Capped(r: Run): Run {
    if r.terminal.None? && r.iterations >= HARD_CAP then r.(terminal := Some(BudgetExhausted(HardCap))) else r
  }

  function Next(r: Run, turn: Turn, budget: Budget): Run {
    match Refusal(r, budget, turn.expired)
    case Some(reason) => r.(terminal := Some(BudgetExhausted(reason)))
    case None =>
      if turn.act.Unanswered? then r.(calls := r.calls + 1, terminal := Some(Crashed))
      else
        var paid := Paid(r, turn.tokens);
        match turn.act
        case Unanswered => paid
        case Ends => paid.(terminal := Some(BudgetExhausted(ModelEnded)))
        case Dies => paid.(terminal := Some(Crashed))
        case Calls(None) => Capped(paid)
        case Calls(Some(s)) => Capped(Looked(paid, s))
  }

  /** The loop from here on; every time round it stops or counts one more iteration. */
  function Loop(r: Run, world: nat -> Turn, budget: Budget): (end: Run)
    requires r.terminal.None? ==> r.iterations < HARD_CAP
    ensures end.terminal.Some?
    decreases HARD_CAP - r.iterations, r.terminal.None?
  {
    if r.terminal.Some? then r else Loop(Next(r, world(r.iterations), budget), world, budget)
  }

  function Generate(world: nat -> Turn, budget: Budget): (end: Run)
    ensures end.terminal.Some?
  {
    Loop(START, world, budget)
  }

  // ------------------------------------------------------------ what every run keeps

  function TrailingInvalid(measured: seq<Snapshot>): (n: nat)
    ensures n <= |measured|
  {
    if measured == [] || measured[|measured| - 1].valid then 0 else 1 + TrailingInvalid(measured[..|measured| - 1])
  }

  predicate Winning(measured: seq<Snapshot>) {
    measured != [] && FrozenOk(measured[|measured| - 1])
  }

  /** Most calls a budget allows. */
  function CallLimit(budget: Budget): int {
    Min(Max(0, budget.maxIterations), HARD_CAP)
  }

  /** The first of the highest-scored. */
  predicate FirstMaximum(m: seq<Snapshot>, i: nat)
    requires i < |m|
  {
    && (forall j :: 0 <= j < |m| ==> !Beats(m[j], m[i]))
    && (forall j :: 0 <= j < i ==> Beats(m[i], m[j]))
  }

  /** Where the snapshot kept after these measurements came from. */
  function BestIndex(m: seq<Snapshot>): (i: nat)
    requires m != []
    ensures i < |m|
  {
    if |m| == 1 then 0
    else
      var n := |m| - 1;
      var i := BestIndex(m[..n]);
      if Beats(m[n], m[i]) then n else i
  }

  predicate Kept(r: Run, budget: Budget) {
    && r.calls <= CallLimit(budget) && r.iterations <= r.calls <= r.iterations + 1
    && (r.terminal != Some(Crashed) ==> r.calls == r.iterations)
    && r.errors == TrailingInvalid(r.measured)
    && (r.terminal == Some(BuildErrors) <==> r.errors >= ABANDON_AFTER)
    && (r.terminal == Some(SpecGreen) <==> Winning(r.measured))
    && (r.measured == [] ==> r.best.None?)
    && (r.measured != [] ==> r.best == Some(r.measured[BestIndex(r.measured)]))
  }

  lemma LookedKeeps(r: Run, s: Snapshot, budget: Budget)
    requires Kept(r, budget) && r.terminal.None?
    ensures Kept(Looked(r, s), budget)
  {
    var m := r.measured + [s];
    assert m[..|r.measured|] == r.measured;
  }

  lemma StopKeeps(r: Run, reason: Reason, budget: Budget)
    requires Kept(r, budget) && r.terminal.None?
    ensures Kept(r.(terminal := Some(BudgetExhausted(reason))), budget)
  {
  }

  lemma CappedKeeps(r: Run, budget: Budget)
    requires Kept(r, budget)
    ensures Kept(Capped(r), budget) && (Capped(r).terminal.None? ==> Capped(r).iterations < HARD_CAP)
  {
    if r.terminal.None? {
      StopKeeps(r, HardCap, budget);
    }
  }

  lemma CrashKeeps(r: Run, budget: Budget)
    requires Kept(r, budget) && r.terminal.None?
    ensures Kept(r.(terminal := Some(Crashed)), budget)
    ensures r.calls < CallLimit(budget) ==> Kept(r.(calls := r.calls + 1, terminal := Some(Crashed)), budget)
  {
  }

  function Paid(r: Run, tokens: nat): Run {
    r.(iterations := r.iterations + 1, tokens := r.tokens + tokens, calls := r.calls + 1)
  }

  lemma PaidKeeps(r: Run, tokens: nat, budget: Budget)
    requires Kept(r, budget) && r.terminal.None? && r.iterations < HARD_CAP && r.iterations < budget.maxIterations
    ensures Kept(Paid(r, tokens), budget)
  {
  }

  lemma NextKeeps(r: Run, turn: Turn, budget: Budget)
    requires Kept(r, budget) && r.terminal.None? && r.iterations < HARD_CAP
    ensures Kept(Next(r, turn, budget), budget)
    ensures Next(r, turn, budget).terminal.None? ==> Next(r, turn, budget).iterations < HARD_CAP
  {
    var refusal := Refusal(r, budget, turn.expired);
    if refusal.Some? {
      StopKeeps(r, refusal.value, budget);
    } else {
      var paid := Paid(r, turn.tokens);
      PaidKeeps(r, turn.tokens, budget);
      match turn.act {
        case Unanswered => CrashKeeps(r, budget);
        case Ends => StopKeeps(paid, ModelEnded, budget);
        case Dies => CrashKeeps(paid, budget);
        case Calls(None) => CappedKeeps(paid, budget);
        case Calls(Some(s)) =>
          LookedKeeps(paid, s, budget);
          CappedKeeps(Looked(paid, s), budget);
      }
    }
  }

  lemma {:induction false} LoopKeeps(r: Run, world: nat -> Turn, budget: Budget)
    requires Kept(r, budget) && (r.terminal.None? ==> r.iterations < HARD_CAP)
    ensures Kept(Loop(r, world, budget), budget)
    decreases HARD_CAP - r.iterations, r.terminal.None?
  {
    if r.terminal.None? {
      NextKeeps(r, world(r.iterations), budget);
      LoopKeeps(Next(r, world(r.iterations), budget), world, budget);
    }
  }

  /** At most as many model calls as both ceilings allow, whatever the model does. */
  lemma CallsWithinBudget(world: nat -> Turn, budget: Budget)
    ensures Generate(world, budget).calls <= CallLimit(budget)
    ensures Generate(world, budget).iterations <= Generate(world, budget).calls
  {
    LoopKeeps(START, world, budget);
  }

  /** What the first `n` replies cost. */
  function Spent(world: nat -> Turn, n: nat): nat {
    if n == 0 then 0 else Spent(world, n - 1) + world(n - 1).tokens
  }

  /** No call is made once the deadline has passed or the earlier replies reached the token spend. */
  lemma {:induction false} NoCallOnceSpent(r: Run, world: nat -> Turn, budget: Budget, i: nat)
    requires r.terminal.None? ==>
      r.iterations < HARD_CAP && r.calls == r.iterations && r.tokens == Spent(world, r.iterations)
    requires r.calls <= i < Loop(r, world, budget).calls
    ensures !world(i).expired
    ensures budget.maxTokens.Some? ==> Spent(world, i) < budget.maxTokens.value
    decreases HARD_CAP - r.iterations, r.terminal.None?
  {
    if r.terminal.None? && i > r.iterations {
      NoCallOnceSpent(Next(r, world(r.iterations), budget), world, budget, i);
    }
  }

  predicate LastThreeInvalid(m: seq<Snapshot>) {
    |m| >= 3 && !m[|m| - 1].valid && !m[|m| - 2].valid && !m[|m| - 3].valid
  }

  lemma ThreeTrailing(m: seq<Snapshot>)
    ensures TrailingInvalid(m) >= ABANDON_AFTER <==> LastThreeInvalid(m)
  {
    if |m| >= 3 {
      var a := m[..|m| - 1];
      var b := a[..|a| - 1];
      assert a[|a| - 1] == m[|m| - 2] && b[|b| - 1] == m[|m| - 3];
      assert TrailingInvalid(m) == if m[|m| - 1].valid then 0 else 1 + TrailingInvalid(a);
      assert TrailingInvalid(a) == if a[|a| - 1].valid then 0 else 1 + TrailingInvalid(b);
      assert TrailingInvalid(b) >= 1 <==> !b[|b| - 1].valid;
    }
  }

  /** A candidate is abandoned for build errors exactly when the last three rounds that wrote a
      script were all invalid; rounds that wrote none in between do not matter. */
  lemma AbandonedIff(world: nat -> Turn, budget: Budget)
    ensures Generate(world, budget).terminal == Some(BuildErrors) <==>
      LastThreeInvalid(Generate(world, budget).measured)
  {
    LoopKeeps(START, world, budget);
    ThreeTrailing(Generate(world, budget).measured);
  }

  lemma {:induction false} BestIsFirstMaximum(m: seq<Snapshot>)
    requires m != []
    ensures FirstMaximum(m, BestIndex(m))
  {
    if |m| > 1 {
      var n := |m| - 1;
      BestIsFirstMaximum(m[..n]);
    }
  }

  /** The kept snapshot is the first of the highest-scored among all that were measured. */
  lemma KeptIsFirstMaximum(world: nat -> Turn, budget: Budget)
    requires Generate(world, budget).measured != []
    ensures var end := Generate(world, budget);
      end.best == Some(end.measured[BestIndex(end.measured)]) && FirstMaximum(end.measured, BestIndex(end.measured))
  {
    LoopKeeps(START, world, budget);
    BestIsFirstMaximum(Generate(world, budget).measured);
  }

  /** A run ends green exactly when the last thing measured is valid, green by its own specs and
      meets the server's frozen contract. */
  lemma GreenIff(world: nat -> Turn, budget: Budget)
    ensures Generate(world, budget).terminal == Some(SpecGreen) <==> Winning(Generate(world, budget).measured)
  {
    LoopKeeps(START, world, budget);
  }

  /** The winner's score is above every earlier one. */
  predicate LastBeatsAll(m: seq<Snapshot>) {
    m != [] && forall j :: 0 <= j < |m| - 1 ==> Beats(m[|m| - 1], m[j])
  }

  /** What a green run hands back is the snapshot that went green exactly when its score strictly
      beats every earlier one. */
  lemma GreenReturnsItselfIff(world: nat -> Turn, budget: Budget)
    requires Generate(world, budget).terminal == Some(SpecGreen)
    ensures var m := Generate(world, budget).measured; m != [] && (BestIndex(m) == |m| - 1 <==> LastBeatsAll(m))
  {
    GreenIff(world, budget);
    BestIsFirstMaximum(Generate(world, budget).measured);
  }

  /** Whether the handed-back result claims the frozen contract is met. */
  predicate ResultFrozenOk(end: Run) {
    end.best.Some? && FrozenOk(end.best.value)
  }

  /** A first part that is green but misses the frozen contract, then one that meets it with no
      better score: the run is green and hands back the first part. */
  lemma GreenMayReturnAnother(world: nat -> Turn, budget: Budget, a: Snapshot, b: Snapshot)
    requires budget.maxIterations >= 2 && budget.maxTokens.None?
    requires !world(0).expired && !world(1).expired
    requires world(0).act == Calls(Some(a)) && world(1).act == Calls(Some(b))
    requires a.valid && a.green && !a.frozen && FrozenOk(b) && !Beats(b, a)
    ensures var end := Generate(world, budget);
      end.terminal == Some(SpecGreen) && end.best == Some(a) && !ResultFrozenOk(end)
  {
    var one := Next(START, world(0), budget);
    assert one == Run(1, world(0).tokens, 1, 0, [a], Some(a), None);
    var two := Next(one, world(1), budget);
    assert two.terminal == Some(SpecGreen) && two.best == Some(a);
    assert Loop(two, world, budget) == two;
    assert Loop(one, world, budget) == Loop(two, world, budget);
  }

  // ------------------------------------------------------------ the objects that run it

  class BudgetedGenClient {
    const budget: Budget
    var iterations: nat
    var tokens: int
    var calls: nat

    constructor (budget: Budget)
      ensures this.budget == budget && iterations == 0 && tokens == 0 && calls == 0
    {
      this.budget := budget;
      iterations, tokens, calls := 0, 0, 0;
    }

    /** The order the ceilings are tried in. */
    method Check(expired: bool) returns (stop: Option<Reason>)
      ensures stop == Refusal(START.(iterations := iterations, tokens := tokens), budget, expired)
    {
      if expired {
        return Some(WallClock);
      }
      if iterations >= budget.maxIterations {
        return Some(MaxIterations);
      }
      if budget.maxTokens.Some? && tokens >= budget.maxTokens.value {
        return Some(MaxTokens);
      }
      stop := None;
    }

    /** One `messages.create`: refused, or passed on and paid for. */
    method Create(turn: Turn) returns (stop: Option<Reason>)
      modifies this
      ensures stop == Refusal(START.(iterations := old(iterations), tokens := old(tokens)), budget, turn.expired)
      ensures stop.Some? ==> iterations == old(iterations) && tokens == old(tokens) && calls == old(calls)
      ensures stop.None? ==> calls == old(calls) + 1
      ensures stop.None? && turn.act.Unanswered? ==> iterations == old(iterations) && tokens == old(tokens)
      ensures stop.None? && !turn.act.Unanswered? ==>
        iterations == old(iterations) + 1 && tokens == old(tokens) + turn.tokens
    {
      stop := Check(turn.expired);
      if stop.None? {
        calls := calls + 1;
        if !turn.act.Unanswered? {
          iterations := iterations + 1;
          tokens := tokens + turn.tokens;
        }
      }
    }
  }

  class Candidate {
    const client: BudgetedGenClient
    var iterations: nat
    var measured: seq<Snapshot>
    var best: Option<Snapshot>
    var terminal: Option<Terminal>
    var specGreen: bool

    constructor (budget: Budget)
      ensures fresh(client) && client.budget == budget && State(0) == START && !specGreen
    {
      client := new BudgetedGenClient(budget);
      iterations, measured, best, terminal, specGreen := 0, [], None, None, false;
    }

    /** The state as a value; the count of consecutive errors is a local of the loop. */
    ghost function State(errors: nat): Run
      reads this, client
    {
      Run(client.iterations, client.tokens, client.calls, errors, measured, best, terminal)
    }

    /** `_look_and_measure` keeps what it saw, and keeps it as best when its score is strictly
        higher. */
    method LookAndMeasure(s: Snapshot)
      modifies this
      ensures measured == old(measured) + [s] && best == Consider(old(best), s)
      ensures iterations == old(iterations) && terminal == old(terminal) && specGreen == old(specGreen)
    {
      measured := measured + [s];
      if best.None? || Beats(s, best.value) {
        best := Some(s);
      }
    }

    method CandidateLoop(world: nat -> Turn)
      requires State(0) == START && !specGreen && iterations == 0
      modifies this, client
      ensures exists errors: nat :: State(errors) == Generate(world, client.budget)
      ensures specGreen == (terminal == Some(SpecGreen))
    {
      var errors := 0;
      while terminal.None?
        invariant !(terminal.Some?) ==> client.iterations < HARD_CAP && iterations == client.iterations
        invariant Loop(State(errors), world, client.budget) == Generate(world, client.budget)
        invariant specGreen == (terminal == Some(SpecGreen))
        decreases HARD_CAP - client.iterations, terminal.None?
      {
        errors := Round(world(client.iterations), errors);
      }
    }

    /** One time round the loop. */
    method Round(turn: Turn, errors: nat) returns (now: nat)
      requires terminal.None? && client.iterations < HARD_CAP && iterations == client.iterations && !specGreen
      modifies this, client
      ensures State(now) == Next(old(State(errors)), turn, client.budget)
      ensures terminal.None? ==> iterations == client.iterations
      ensures specGreen == (terminal == Some(SpecGreen))
    {
      now := errors;
      var stop := client.Create(turn);
      if stop.Some? {
        terminal := Some(BudgetExhausted(stop.value));
        return;
      }
      if turn.act.Unanswered? {
        terminal := Some(Crashed);
        return;
      }
      iterations := iterations + 1;
      if turn.act.Ends? {
        terminal := Some(BudgetExhausted(ModelEnded));
        return;
      }
      if turn.act.Dies? {
        terminal := Some(Crashed);
        return;
      }
      if turn.act.look.Some? {
        var s := turn.act.look.value;
        LookAndMeasure(s);
        if !s.valid {
          now := errors + 1;
          if now >= ABANDON_AFTER {
            terminal := Some(BuildErrors);
            return;
          }
        } else {
          now := 0;
          if s.green && s.frozen {
            terminal := Some(SpecGreen);
            specGreen := true;
            return;
          }
        }
      }
      if iterations >= HARD_CAP {
        terminal := Some(BudgetExhausted(HardCap));
      }
    }
  }

  // ------------------------------------------------------------ the choice among candidates

  /** What ranks a finished candidate: its verdict, then the score of what it hands back. */
  datatype Result = Result(specGreen: bool, best: Option<Snapshot>)

  const NOTHING := Snapshot("", false, false, 0, 0, 0.0, false)

  function Shown(c: Result): Snapshot {
    if c.best.Some? then c.best.value else NOTHING
  }

  predicate Outranks(a: Result, b: Result) {
    if a.specGreen != b.specGreen then a.specGreen else Beats(Shown(a), Shown(b))
  }

  method PickBest(candidates: seq<Result>) returns (pick: Option<nat>)
    ensures pick.None? <==> candidates == []
    ensures pick.Some? ==> pick.value < |candidates|
    ensures pick.Some? ==> forall j :: 0 <= j < |candidates| ==> !Outranks(candidates[j], candidates[pick.value])
    ensures pick.Some? ==> forall j :: 0 <= j < pick.value ==> Outranks(candidates[pick.value], candidates[j])
    ensures pick.Some? && (exists j :: 0 <= j < |candidates| && candidates[j].specGreen) ==>
      candidates[pick.value].specGreen
  {
    if candidates == [] {
      return None;
    }
    var at := 0;
    for i := 1 to |candidates|
      invariant at < i
      invariant forall j :: 0 <= j < i ==> !Outranks(candidates[j], candidates[at])
      invariant forall j :: 0 <= j < at ==> Outranks(candidates[at], candidates[j])
    {
      if Outranks(candidates[i], candidates[at]) {
        at := i;
      }
    }
    pick := Some(at);
  }
}
