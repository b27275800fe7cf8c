/** Any sequence of chat turns, cancelled or not: exactly when the calls of the whole transcript are
    answered. */
module TurnSequences {
  import opened Options
  import opened Transcript
  import opened SkillIndex
  import opened ChatTurn

  // ------------------------------------------------------------ a transcript only grows

  /** The same messages, except for what results hold, and perhaps more behind them. */
  predicate Grown(h: seq<Message>, g: seq<Message>) {
    |h| <= |g| && forall i :: 0 <= i < |h| ==> SameShape(h[i], g[i])
  }

  lemma GrownThen(f: seq<Message>, g: seq<Message>, h: seq<Message>)
    requires Grown(f, g) && Grown(g, h)
    ensures Grown(f, h)
  {
    forall i | 0 <= i < |f|
      ensures SameShape(f[i], h[i])
    {
      assert SameShape(f[i], g[i]) && SameShape(g[i], h[i]);
    }
  }

  lemma ReplyGrows(cfg: Config, heard: State, uses: seq<Part>, outcomes: seq<Outcome>)
    requires forall i :: 0 <= i < |uses| ==> uses[i].ToolUse?
    ensures Grown(heard.book.history, Follow(cfg, heard, uses, outcomes).state.book.history)
  {
    if uses != [] && FirstBad(uses, outcomes, 0) == |uses| {
      var full := Say(heard.book, Answers(AnswersOf(uses, outcomes, |uses|)));
      var loads := LoadsOf(cfg.skills, uses, outcomes, |uses|);
      RecordAllReshapes(full, cfg.limits, loads, |loads|);
      GrownThen(heard.book.history, full.history, RecordAll(full, cfg.limits, loads, |loads|).history);
    }
  }

  lemma RoundGrows(cfg: Config, w: World, s: State)
    ensures Grown(s.book.history, OneRound(cfg, w, s).state.book.history)
  {
    if w.rounds(s.asked).Replied? {
      var heard := Hear(Ask(w, s), w.rounds(s.asked).parts);
      ReplyGrows(cfg, heard, ToolUses(w.rounds(s.asked).parts), w.rounds(s.asked).outcomes);
      GrownThen(s.book.history, heard.book.history,
                Follow(cfg, heard, ToolUses(w.rounds(s.asked).parts), w.rounds(s.asked).outcomes).state.book.history);
    }
  }

  lemma {:induction false} LoopGrows(cfg: Config, w: World, s: State)
    requires s.calls < MAX_TOOL_CALLS_PER_TURN
    ensures Grown(s.book.history, Loop(cfg, w, s).0.book.history)
    decreases MAX_TOOL_CALLS_PER_TURN - s.calls
  {
    RoundGrows(cfg, w, s);
    var next := OneRound(cfg, w, s);
    if next.Go? {
      LoopGrows(cfg, w, next.state);
      GrownThen(s.book.history, next.state.book.history, Loop(cfg, w, next.state).0.book.history);
    }
  }

  function Prompted(input: Input, s: State): State {
    s.(calls := 0, asked := 0, lastRound := 0, book := Say(s.book, Prompt(input.message)))
  }

  /** A turn that gets as far as its prompt goes on from there. */
  lemma PromptGrows(cfg: Config, input: Input, s: State)
    requires input.start != NoClient
    ensures Grown(Prompted(input, s).book.history, Turn(cfg, input, s).0.book.history)
  {
    if input.start == Ready {
      LoopGrows(cfg, input.world, Prompted(input, s));
    }
  }

  lemma TurnGrows(cfg: Config, input: Input, s: State)
    ensures Grown(s.book.history, Turn(cfg, input, s).0.book.history)
  {
    if input.start != NoClient {
      PromptGrows(cfg, input, s);
      GrownThen(s.book.history, Prompted(input, s).book.history, Turn(cfg, input, s).0.book.history);
    }
  }

  // ------------------------------------------------------------ what is open stays open

  lemma OpenStaysOpen(h: seq<Message>, g: seq<Message>, i: nat)
    requires Grown(h, g) && i < |h| - 1 && !AnsweredAt(h, i)
    ensures !AnsweredAt(g, i)
  {
    assert SameShape(h[i], g[i]) && SameShape(h[i + 1], g[i + 1]);
  }

  lemma BrokenStaysBroken(h: seq<Message>, g: seq<Message>)
    requires Grown(h, g) && !PairedButLast(h)
    ensures !PairedButLast(g)
  {
    var i :| 0 <= i < |h| - 1 && !AnsweredAt(h, i);
    OpenStaysOpen(h, g, i);
  }

  lemma {:induction false} TurnsStayBroken(cfg: Config, inputs: seq<Input>, s: State)
    requires !PairedButLast(s.book.history)
    ensures !PairedButLast(Turns(cfg, inputs, s).book.history)
    decreases |inputs|
  {
    if inputs != [] {
      TurnGrows(cfg, inputs[0], s);
      BrokenStaysBroken(s.book.history, Turn(cfg, inputs[0], s).0.book.history);
      TurnsStayBroken(cfg, inputs[1..], Turn(cfg, inputs[0], s).0);
    }
  }

  /** A prompt behind calls that were left open breaks the transcript. */
  lemma PromptBreaks(cfg: Config, input: Input, s: State)
    requires Dangling(s.book.history) && input.start != NoClient
    ensures !PairedButLast(Turn(cfg, input, s).0.book.history)
  {
    var h, n := Prompted(input, s).book.history, |s.book.history| - 1;
    assert h[n] == s.book.history[n] && h[n + 1] == Prompt(input.message);
    assert !AnsweredAt(h, n);
    PromptGrows(cfg, input, s);
    BrokenStaysBroken(h, Turn(cfg, input, s).0.book.history);
  }

  // ------------------------------------------------------------ what is answered stays answered

  /** The end of a turn: every call answered, but for the last reply's when it was cancelled. */
  predicate EndsPaired(t: State, end: End) {
    PairedButLast(t.book.history) && (end != Cut ==> Paired(t.book.history))
  }

  predicate RoundPairs(next: Next) {
    match next
    case Go(t) => Paired(t.book.history)
    case Stop(t, end) => EndsPaired(t, end)
  }

  lemma PairedNeedsNoRepair(h: seq<Message>)
    requires Paired(h)
    ensures Repair(h) == h
  {
    RepairRestores(h);
  }

  lemma SettledPairs(cfg: Config, heard: State, uses: seq<Part>, outcomes: seq<Outcome>)
    requires PairedButLast(heard.book.history) && heard.book.history != []
    requires uses == Calls(heard.book.history[|heard.book.history| - 1])
    requires forall i :: 0 <= i < |uses| ==> OutcomeOf(outcomes, i).Done?
    ensures Paired(Settle(cfg, heard, uses, outcomes).book.history)
  {
    var answers := AnswersOf(uses, outcomes, |uses|);
    var full := Say(heard.book, Answers(answers));
    var loads := LoadsOf(cfg.skills, uses, outcomes, |uses|);
    AppendAnswers(heard.book.history, answers);
    RecordAllReshapes(full, cfg.limits, loads, |loads|);
    ReshapedPairs(full.history, RecordAll(full, cfg.limits, loads, |loads|).history);
  }

  lemma FollowPairs(cfg: Config, s: State, parts: seq<Part>, outcomes: seq<Outcome>)
    requires Paired(s.book.history)
    ensures RoundPairs(Follow(cfg, Hear(s, parts), ToolUses(parts), outcomes))
  {
    var heard := Hear(s, parts);
    AppendAnswered(s.book.history, Assistant(parts));
    RepairRestores(heard.book.history);
    if ToolUses(parts) != [] && FirstBad(ToolUses(parts), outcomes, 0) == |ToolUses(parts)| {
      SettledPairs(cfg, heard, ToolUses(parts), outcomes);
    }
  }

  lemma RoundKeepsPairs(cfg: Config, w: World, s: State)
    requires Paired(s.book.history)
    ensures RoundPairs(OneRound(cfg, w, s))
  {
    PairedNeedsNoRepair(s.book.history);
    if w.rounds(s.asked).Replied? {
      FollowPairs(cfg, Ask(w, s), w.rounds(s.asked).parts, w.rounds(s.asked).outcomes);
    }
  }

  lemma {:induction false} LoopPairs(cfg: Config, w: World, s: State)
    requires s.calls < MAX_TOOL_CALLS_PER_TURN && Paired(s.book.history)
    ensures EndsPaired(Loop(cfg, w, s).0, Loop(cfg, w, s).1)
    decreases MAX_TOOL_CALLS_PER_TURN - s.calls
  {
    RoundKeepsPairs(cfg, w, s);
    var next := OneRound(cfg, w, s);
    if next.Go? {
      LoopPairs(cfg, w, next.state);
    }
  }

  lemma NotDanglingIsPaired(h: seq<Message>)
    requires PairedButLast(h)
    ensures Paired(h) <==> !Dangling(h)
  {
    RepairRestores(h);
  }

  /** One turn that does not prompt behind open calls. */
  lemma TurnPairs(cfg: Config, input: Input, s: State)
    requires PairedButLast(s.book.history) && (input.start != NoClient ==> !Dangling(s.book.history))
    ensures EndsPaired(Turn(cfg, input, s).0, Turn(cfg, input, s).1)
  {
    if input.start == NoClient {
      RepairRestores(s.book.history);
    } else {
      NotDanglingIsPaired(s.book.history);
      AppendAnswered(s.book.history, Prompt(input.message));
      PairedNeedsNoRepair(Prompted(input, s).book.history);
      if input.start == Ready {
        LoopPairs(cfg, input.world, Prompted(input, s));
      }
    }
  }

  // ------------------------------------------------------------ over any sequence of turns

  /** No turn that gets as far as its prompt begins on calls a cancellation left open. */
  predicate PromptsWait(cfg: Config, inputs: seq<Input>, s: State)
    decreases |inputs|
  {
    inputs != [] ==>
      && (inputs[0].start != NoClient ==> !Dangling(s.book.history))
      && PromptsWait(cfg, inputs[1..], Turn(cfg, inputs[0], s).0)
  }

  lemma {:induction false} PairedButLastIff(cfg: Config, inputs: seq<Input>, s: State)
    requires PairedButLast(s.book.history)
    ensures PairedButLast(Turns(cfg, inputs, s).book.history) <==> PromptsWait(cfg, inputs, s)
    decreases |inputs|
  {
    if inputs != [] {
      var next := Turn(cfg, inputs[0], s).0;
      if inputs[0].start != NoClient && Dangling(s.book.history) {
        PromptBreaks(cfg, inputs[0], s);
        TurnsStayBroken(cfg, inputs[1..], next);
      } else {
        TurnPairs(cfg, inputs[0], s);
        PairedButLastIff(cfg, inputs[1..], next);
      }
    }
  }

  /** Over every sequence of turns, cancelled or not and whatever ids the model uses, the transcript has
      all its calls answered exactly when no prompt was put behind open calls and the last turn left
      none open; the engine's repair supplies what the last turn left open, and nothing else. */
  lemma TurnsPairedIff(cfg: Config, inputs: seq<Input>, s: State)
    requires PairedButLast(s.book.history)
    ensures var h := Turns(cfg, inputs, s).book.history;
      && (Paired(h) <==> PromptsWait(cfg, inputs, s) && !Dangling(h))
      && (Paired(Repair(h)) <==> PromptsWait(cfg, inputs, s))
  {
    PairedButLastIff(cfg, inputs, s);
    var h := Turns(cfg, inputs, s).book.history;
    if PairedButLast(h) {
      RepairRestores(h);
    } else {
      BrokenStaysBroken(h, Repair(h));
    }
  }

  /** A turn started on top of calls a cancellation left open leaves them open for good: no sequence of
      later turns, and no repair, answers them. */
  lemma CutThenPromptStaysOpen(cfg: Config, input: Input, later: seq<Input>, s: State)
    requires Dangling(s.book.history) && input.start != NoClient
    ensures var h, n := Turns(cfg, [input] + later, s).book.history, |s.book.history| - 1;
      && n + 1 < |h| && !AnsweredAt(h, n) && !Paired(Repair(h))
  {
    var n := |s.book.history| - 1;
    var next := Turn(cfg, input, s).0;
    var first := Prompted(input, s).book.history;
    assert first[n] == s.book.history[n] && first[n + 1] == Prompt(input.message);
    PromptGrows(cfg, input, s);
    assert ([input] + later)[1..] == later;
    TurnsGrow(cfg, later, next);
    var h := Turns(cfg, later, next).book.history;
    GrownThen(first, next.book.history, h);
    OpenStaysOpen(first, h, n);
    OpenStaysOpen(h, Repair(h), n);
  }

  lemma {:induction false} TurnsGrow(cfg: Config, inputs: seq<Input>, s: State)
    ensures Grown(s.book.history, Turns(cfg, inputs, s).book.history)
    decreases |inputs|
  {
    if inputs != [] {
      TurnGrows(cfg, inputs[0], s);
      TurnsGrow(cfg, inputs[1..], Turn(cfg, inputs[0], s).0);
      GrownThen(s.book.history, Turn(cfg, inputs[0], s).0.book.history, Turns(cfg, inputs, s).book.history);
    }
  }
}
