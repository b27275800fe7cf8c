/** The bench's budgets over one turn, and the stop reason a run reports. */
module BenchRun {
  import opened Integers
  import opened Options
  import opened Transcript
  import opened SkillIndex
  import opened ChatTurn

  // ------------------------------------------------------------ counting tool calls

  lemma CountAppend(h: seq<Message>, m: Message)
    ensures CountToolUses(h + [m]) == CountToolUses(h) + |Calls(m)|
  {
    assert (h + [m])[..|h|] == h;
  }

  lemma RepairKeepsCount(h: seq<Message>)
    ensures CountToolUses(Repair(h)) == CountToolUses(h)
  {
    if Dangling(h) {
      CountAppend(h, Answers(Interruptions(Calls(h[|h| - 1]))));
    }
  }

  lemma HearCount(s: State, parts: seq<Part>)
    ensures CountToolUses(Hear(s, parts).book.history) == CountToolUses(s.book.history) + |ToolUses(parts)|
  {
    CountAppend(s.book.history, Assistant(parts));
  }

  lemma SettleCount(cfg: Config, s: State, uses: seq<Part>, outcomes: seq<Outcome>)
    requires forall i :: 0 <= i < |uses| ==> uses[i].ToolUse? && OutcomeOf(outcomes, i).Done?
    ensures CountToolUses(Settle(cfg, s, uses, outcomes).book.history) == CountToolUses(s.book.history)
  {
    var full := Say(s.book, Answers(AnswersOf(uses, outcomes, |uses|)));
    var loads := LoadsOf(cfg.skills, uses, outcomes, |uses|);
    CountAppend(s.book.history, Answers(AnswersOf(uses, outcomes, |uses|)));
    RecordAllReshapes(full, cfg.limits, loads, |loads|);
    SameCallsSameCount(full.history, RecordAll(full, cfg.limits, loads, |loads|).history);
  }

  // ------------------------------------------------------------ what the client lets through

  /** Request number `k` was inside every ceiling when it was made. */
  predicate WithinCaps(caps: Caps, r: Request, k: nat) {
    match caps
    case NoCaps => true
    case Caps(deadline, maxToolCalls, maxApiTurns) =>
      && (deadline.Some? ==> r.at <= deadline.value)
      && r.toolUses < maxToolCalls
      && k < maxApiTurns
  }

  predicate CapsKept(caps: Caps, requests: seq<Request>) {
    forall k :: 0 <= k < |requests| ==> WithinCaps(caps, requests[k], k)
  }

  /** What a loop that began at `s` may have done by the time it reaches `t`. */
  predicate Accounted(s: State, t: State) {
    && s.requests <= t.requests
    && CountToolUses(t.book.history) - CountToolUses(s.book.history) >= t.calls - s.calls >= 0
    && (if |t.requests| > |s.requests| then
          CountToolUses(t.book.history) <= t.requests[|t.requests| - 1].toolUses + t.lastRound
        else
          CountToolUses(t.book.history) == CountToolUses(s.book.history) && t.lastRound == s.lastRound)
  }

  /** What the end of a loop says about it. */
  predicate EndMeans(s: State, t: State, end: End) {
    && (t.stopped.Some? ==> end == Died)
    && (end == ModelEnded ==>
         && t.calls < MAX_TOOL_CALLS_PER_TURN
         && CountToolUses(t.book.history) - CountToolUses(s.book.history) == t.calls - s.calls
         && |t.requests| > |s.requests|
         && CountToolUses(t.book.history) == t.requests[|t.requests| - 1].toolUses)
    && (end == CallLimit ==> MAX_TOOL_CALLS_PER_TURN <= t.calls < MAX_TOOL_CALLS_PER_TURN + t.lastRound)
  }

  /** What one round does to the tally, whether it ends the turn or not. */
  predicate RoundTally(s: State, next: Next) {
    && Accounted(s, next.state)
    && |next.state.requests| <= |s.requests| + 1
    && (next.Stop? ==> EndMeans(s, next.state, next.end))
    && (next.Go? ==>
         && |next.state.requests| == |s.requests| + 1 && next.state.stopped.None?
         && CountToolUses(next.state.book.history) - CountToolUses(s.book.history) == next.state.calls - s.calls)
  }

  lemma SettledTally(cfg: Config, w: World, s: State, parts: seq<Part>, outcomes: seq<Outcome>)
    requires s.calls < MAX_TOOL_CALLS_PER_TURN && ToolUses(parts) != []
    requires forall i :: 0 <= i < |ToolUses(parts)| ==> OutcomeOf(outcomes, i).Done?
    ensures var t := Settle(cfg, Hear(Ask(w, s), parts), ToolUses(parts), outcomes);
            && RoundTally(s, if t.calls >= MAX_TOOL_CALLS_PER_TURN then Stop(t, CallLimit) else Go(t))
  {
    var heard := Hear(Ask(w, s), parts);
    HearCount(Ask(w, s), parts);
    SettleCount(cfg, heard, ToolUses(parts), outcomes);
  }

  /** A round that ends before its results are in: the reply's calls are counted, none settled. */
  lemma UnsettledTally(cfg: Config, w: World, s: State, parts: seq<Part>, end: End)
    requires s.calls < MAX_TOOL_CALLS_PER_TURN && end != CallLimit
    requires end == ModelEnded ==> ToolUses(parts) == []
    ensures var heard := Hear(Ask(w, s), parts);
            && RoundTally(s, Stop(heard, end)) && RoundTally(s, Stop(Die(heard), Died))
  {
    HearCount(Ask(w, s), parts);
    RepairKeepsCount(Hear(Ask(w, s), parts).book.history);
  }

  lemma FollowTally(cfg: Config, w: World, s: State, parts: seq<Part>, outcomes: seq<Outcome>)
    requires s.calls < MAX_TOOL_CALLS_PER_TURN
    ensures RoundTally(s, Follow(cfg, Hear(Ask(w, s), parts), ToolUses(parts), outcomes))
  {
    var uses := ToolUses(parts);
    if uses == [] {
      UnsettledTally(cfg, w, s, parts, ModelEnded);
    } else if FirstBad(uses, outcomes, 0) < |uses| {
      UnsettledTally(cfg, w, s, parts, Cut);
    } else {
      SettledTally(cfg, w, s, parts, outcomes);
    }
  }

  /** A round that ends without a reply. */
  lemma SilentTally(cfg: Config, w: World, s: State, stopped: Option<Reason>)
    requires s.calls < MAX_TOOL_CALLS_PER_TURN
    ensures RoundTally(s, Stop(Die(s.(stopped := stopped)), Died))
    ensures RoundTally(s, Stop(Die(Ask(w, s)), Died)) && RoundTally(s, Stop(Ask(w, s), Cut))
  {
    RepairKeepsCount(s.book.history);
  }

  lemma RoundTallied(cfg: Config, w: World, s: State)
    requires s.calls < MAX_TOOL_CALLS_PER_TURN
    ensures RoundTally(s, OneRound(cfg, w, s))
  {
    var stopped := Check(cfg.caps, s.stopped, CountToolUses(s.book.history), |s.requests|, w.clock(s.asked));
    if stopped.None? && w.rounds(s.asked).Replied? {
      FollowTally(cfg, w, s, w.rounds(s.asked).parts, w.rounds(s.asked).outcomes);
    } else {
      SilentTally(cfg, w, s, stopped);
    }
  }

  lemma RoundCaps(cfg: Config, w: World, s: State)
    requires CapsKept(cfg.caps, s.requests)
    ensures CapsKept(cfg.caps, OneRound(cfg, w, s).state.requests)
  {
  }

  lemma {:induction false} LoopCaps(cfg: Config, w: World, s: State)
    requires s.calls < MAX_TOOL_CALLS_PER_TURN && CapsKept(cfg.caps, s.requests)
    ensures CapsKept(cfg.caps, Loop(cfg, w, s).0.requests)
    decreases MAX_TOOL_CALLS_PER_TURN - s.calls
  {
    RoundCaps(cfg, w, s);
    var next := OneRound(cfg, w, s);
    if next.Go? {
      LoopCaps(cfg, w, next.state);
    }
  }

  lemma TallyThen(s: State, m: State, t: State, end: End)
    requires RoundTally(s, Go(m)) && Accounted(m, t) && EndMeans(m, t, end)
    ensures Accounted(s, t) && EndMeans(s, t, end)
  {
  }

  /** Every turn makes at most as many requests as it has tool calls left, and ends with at most
      one round of calls more than its last request held. */
  lemma {:induction false} LoopAccounted(cfg: Config, w: World, s: State)
    requires s.calls < MAX_TOOL_CALLS_PER_TURN
    ensures var (t, end) := Loop(cfg, w, s);
            && Accounted(s, t)
            && EndMeans(s, t, end)
            && |t.requests| <= |s.requests| + MAX_TOOL_CALLS_PER_TURN - s.calls
    decreases MAX_TOOL_CALLS_PER_TURN - s.calls
  {
    RoundTallied(cfg, w, s);
    var next := OneRound(cfg, w, s);
    if next.Go? {
      LoopAccounted(cfg, w, next.state);
      var (t, end) := Loop(cfg, w, next.state);
      TallyThen(s, next.state, t, end);
    }
  }

  // ------------------------------------------------------------ one bench run

  datatype Budget = Budget(deadline: real, turns: int, apiTurns: int)

  function BenchConfig(skills: bool, limits: Limits, budget: Budget): Config {
    Config(skills, limits, Caps(Some(budget.deadline), budget.turns, budget.apiTurns))
  }

  /** The one turn of a run, on a fresh engine. */
  function Run(skills: bool, limits: Limits, budget: Budget, input: Input): (State, End) {
    Turn(BenchConfig(skills, limits, budget), input, FRESH)
  }

  /** At most `api_turns` requests reach the model, none after the deadline and none once the
      conversation holds `turns` tool calls; the final count exceeds `turns` by less than one
      round, and no run makes more than thirty requests. */
  lemma RunWithinBudget(skills: bool, limits: Limits, budget: Budget, input: Input)
    ensures var (t, end) := Run(skills, limits, budget, input);
            && (forall k :: 0 <= k < |t.requests| ==>
                 t.requests[k].at <= budget.deadline && t.requests[k].toolUses < budget.turns && k < budget.apiTurns)
            && |t.requests| <= MAX_TOOL_CALLS_PER_TURN
            && (t.requests != [] ==> CountToolUses(t.book.history) < budget.turns + t.lastRound)
            && (t.requests == [] ==> CountToolUses(t.book.history) == 0)
  {
    var prompted := FRESH.(book := Say(FRESH.book, Prompt(input.message)));
    CountAppend([], Prompt(input.message));
    RepairKeepsCount([]);
    RepairKeepsCount(prompted.book.history);
    LoopAccounted(BenchConfig(skills, limits, budget), input.world, prompted);
    LoopCaps(BenchConfig(skills, limits, budget), input.world, prompted);
    var (t, end) := Run(skills, limits, budget, input);
    assert CapsKept(BenchConfig(skills, limits, budget).caps, t.requests);
    forall k | 0 <= k < |t.requests|
      ensures t.requests[k].at <= budget.deadline && t.requests[k].toolUses < budget.turns && k < budget.apiTurns
    {
      assert WithinCaps(BenchConfig(skills, limits, budget).caps, t.requests[k], k);
    }
  }

  datatype Verdict = ModelEndedTurn | Spent(reason: Reason) | Error

  /** The stop reason of `run_task`. */
  function VerdictOf(budget: Budget, t: State, end: End): Verdict {
    if end == Cut then Spent(WallClock)
    else if t.stopped.Some? then Spent(t.stopped.value)
    else if t.marked || end == Died then Error
    else if CountToolUses(Repair(t.book.history)) >= Min(budget.turns, MAX_TOOL_CALLS_PER_TURN) then Spent(ToolCalls)
    else ModelEndedTurn
  }

  predicate OverBudget(budget: Budget, t: State, end: End) {
    VerdictOf(budget, t, end) != ModelEndedTurn
  }

  /** A run counts as within budget exactly when the model ended its own turn and no text of any
      reply began like the engine's error message. */
  lemma HonestVerdict(skills: bool, limits: Limits, budget: Budget, input: Input)
    ensures var (t, end) := Run(skills, limits, budget, input);
            !OverBudget(budget, t, end) <==> end == ModelEnded && !t.marked
  {
    var cfg := BenchConfig(skills, limits, budget);
    var prompted := FRESH.(book := Say(FRESH.book, Prompt(input.message)));
    CountAppend([], Prompt(input.message));
    LoopAccounted(cfg, input.world, prompted);
    RunWithinBudget(skills, limits, budget, input);
    var (t, end) := Run(skills, limits, budget, input);
    RepairKeepsCount(t.book.history);
  }

  /** The text condition is needed: a model that quotes the engine's error prefix and ends its turn
      is reported as a failed, over-budget run. */
  lemma QuotedErrorIsMisjudged(limits: Limits)
    ensures var reply := [Prose(ERROR_PREFIX + "fixed")];
            var input := Input("go", Ready, World(k => Replied(reply, []), k => 0.0));
            var budget := Budget(60.0, 10, 10);
            var (t, end) := Run(true, limits, budget, input);
            end == ModelEnded && VerdictOf(budget, t, end) == Error
  {
    var reply := [Prose(ERROR_PREFIX + "fixed")];
    var w := World(k => Replied(reply, []), k => 0.0);
    var prompted := FRESH.(book := Say(FRESH.book, Prompt("go")));
    CountAppend([], Prompt("go"));
    assert ToolUses(reply) == [];
    assert reply[0].Prose? && ERROR_PREFIX <= reply[0].text;
    assert OneRound(BenchConfig(true, limits, Budget(60.0, 10, 10)), w, prompted).Stop?;
  }

  /** A refusal names the ceiling that was reached when it was made. */
  predicate RefusedFor(caps: Caps, w: World, t: State) {
    caps.Caps? && t.stopped.Some? ==>
      match t.stopped.value
      case WallClock => caps.deadline.Some? && w.clock(t.asked) > caps.deadline.value
      case ToolCalls => CountToolUses(t.book.history) >= caps.maxToolCalls
      case ApiTurns => |t.requests| >= caps.maxApiTurns
  }

  lemma RoundRefusal(cfg: Config, w: World, s: State)
    requires s.stopped.None?
    ensures RefusedFor(cfg.caps, w, OneRound(cfg, w, s).state)
  {
    var stopped := Check(cfg.caps, s.stopped, CountToolUses(s.book.history), |s.requests|, w.clock(s.asked));
    if stopped.Some? {
      RepairKeepsCount(s.book.history);
    }
  }

  lemma {:induction false} LoopRefusal(cfg: Config, w: World, s: State)
    requires s.calls < MAX_TOOL_CALLS_PER_TURN && s.stopped.None?
    ensures RefusedFor(cfg.caps, w, Loop(cfg, w, s).0)
    decreases MAX_TOOL_CALLS_PER_TURN - s.calls
  {
    RoundTallied(cfg, w, s);
    RoundRefusal(cfg, w, s);
    var next := OneRound(cfg, w, s);
    if next.Go? {
      LoopRefusal(cfg, w, next.state);
    }
  }

  lemma RunRefusal(skills: bool, limits: Limits, budget: Budget, input: Input)
    ensures RefusedFor(BenchConfig(skills, limits, budget).caps, input.world, Run(skills, limits, budget, input).0)
  {
    var prompted := FRESH.(book := Say(FRESH.book, Prompt(input.message)));
    LoopRefusal(BenchConfig(skills, limits, budget), input.world, prompted);
  }

  /** The verdict of a run, given what it was refused for and how many calls its transcript holds. */
  predicate Told(budget: Budget, w: World, t: State) {
    && RefusedFor(Caps(Some(budget.deadline), budget.turns, budget.apiTurns), w, t)
    && CountToolUses(Repair(t.book.history)) == CountToolUses(t.book.history)
  }

  lemma ToolCallsMeans(budget: Budget, w: World, t: State, end: End)
    requires Told(budget, w, t) && VerdictOf(budget, t, end) == Spent(ToolCalls)
    ensures CountToolUses(t.book.history) >= Min(budget.turns, MAX_TOOL_CALLS_PER_TURN)
  {
  }

  lemma ApiTurnsMeans(budget: Budget, w: World, t: State, end: End)
    requires Told(budget, w, t) && VerdictOf(budget, t, end) == Spent(ApiTurns)
    ensures |t.requests| >= budget.apiTurns
  {
  }

  lemma WallClockMeans(budget: Budget, w: World, t: State, end: End)
    requires Told(budget, w, t) && VerdictOf(budget, t, end) == Spent(WallClock)
    ensures end == Cut || w.clock(t.asked) > budget.deadline
  {
  }

  lemma EndedMeans(skills: bool, limits: Limits, budget: Budget, input: Input)
    requires var (t, end) := Run(skills, limits, budget, input); VerdictOf(budget, t, end) == ModelEndedTurn
    ensures var (t, end) := Run(skills, limits, budget, input);
      end == ModelEnded && CountToolUses(t.book.history) < Min(budget.turns, MAX_TOOL_CALLS_PER_TURN)
  {
    HonestVerdict(skills, limits, budget, input);
    RepairKeepsCount(Run(skills, limits, budget, input).0.book.history);
  }

  /** Every reason is true of the run that reports it. */
  lemma VerdictMeans(skills: bool, limits: Limits, budget: Budget, input: Input)
    ensures var (t, end) := Run(skills, limits, budget, input);
            match VerdictOf(budget, t, end)
            case Spent(ToolCalls) => CountToolUses(t.book.history) >= Min(budget.turns, MAX_TOOL_CALLS_PER_TURN)
            case Spent(ApiTurns) => |t.requests| >= budget.apiTurns
            case Spent(WallClock) => end == Cut || input.world.clock(t.asked) > budget.deadline
            case Error => t.marked || end == Died
            case ModelEndedTurn =>
              end == ModelEnded && CountToolUses(t.book.history) < Min(budget.turns, MAX_TOOL_CALLS_PER_TURN)
  {
    var (t, end) := Run(skills, limits, budget, input);
    RunRefusal(skills, limits, budget, input);
    RepairKeepsCount(t.book.history);
    match VerdictOf(budget, t, end) {
      case Spent(ToolCalls) => ToolCallsMeans(budget, input.world, t, end);
      case Spent(ApiTurns) => ApiTurnsMeans(budget, input.world, t, end);
      case Spent(WallClock) => WallClockMeans(budget, input.world, t, end);
      case ModelEndedTurn => EndedMeans(skills, limits, budget, input);
      case Error =>
    }
  }

  /** The transcript a run writes down answers every call, even when the turn was cut short. */
  lemma RunTranscriptPaired(skills: bool, limits: Limits, budget: Budget, input: Input)
    requires FreshIds(input.world, 0, [])
    ensures Paired(Repair(Run(skills, limits, budget, input).0.book.history))
  {
    FreshIsSound();
    TurnSound(BenchConfig(skills, limits, budget), input, FRESH);
    var (t, end) := Run(skills, limits, budget, input);
    if end != Cut {
      RepairRestores(t.book.history);
    }
  }
}
