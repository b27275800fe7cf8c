/** What a turn's bookkeeping means in terms of the blocks of its replies: which blocks are calls, what
    answers them, which calls are loads and what they cost, and which replies read like an error. */
module TurnMeaning {
  import opened Options
  import opened Transcript
  import opened SkillIndex
  import opened ChatTurn
  import opened BenchRun

  // ------------------------------------------------------------ calls

  /** The positions of the tool_use blocks among the first `n` of a reply. */
  function CallsAt(parts: seq<Part>, n: nat): set<nat>
    requires n <= |parts|
  {
    set k: nat | k < n && parts[k].ToolUse?
  }

  lemma {:induction false} UsesOfBoth(a: seq<Part>, b: seq<Part>)
    ensures ToolUses(a + b) == ToolUses(a) + ToolUses(b)
  {
    if a == [] {
      assert a + b == b;
    } else {
      assert (a + b)[1..] == a[1..] + b;
      UsesOfBoth(a[1..], b);
    }
  }

  lemma UsesOfNext(parts: seq<Part>, n: nat)
    requires n < |parts|
    ensures ToolUses(parts[..n + 1]) == ToolUses(parts[..n]) + if parts[n].ToolUse? then [parts[n]] else []
  {
    assert parts[..n + 1] == parts[..n] + [parts[n]];
    assert [parts[n]][1..] == [];
    UsesOfBoth(parts[..n], [parts[n]]);
  }

  /** The calls of a reply are its tool_use blocks, each once. */
  lemma {:induction false} UsesCounted(parts: seq<Part>, n: nat)
    requires n <= |parts|
    ensures |ToolUses(parts[..n])| == |CallsAt(parts, n)|
  {
    if n > 0 {
      UsesCounted(parts, n - 1);
      UsesOfNext(parts, n - 1);
      var few := CallsAt(parts, n - 1);
      assert CallsAt(parts, n) == if parts[n - 1].ToolUse? then few + {n - 1} else few;
    }
  }

  lemma {:induction false} UseListed(parts: seq<Part>, k: nat) returns (j: nat)
    requires k < |parts| && parts[k].ToolUse?
    ensures j < |ToolUses(parts)| && ToolUses(parts)[j] == parts[k]
  {
    if k == 0 {
      j := 0;
    } else {
      j := UseListed(parts[1..], k - 1);
      if parts[0].ToolUse? {
        j := j + 1;
      }
    }
  }

  /** Some tool_use block of the reply has this id. */
  predicate CallsUnder(parts: seq<Part>, id: string) {
    exists k :: 0 <= k < |parts| && parts[k].ToolUse? && parts[k].id == id
  }

  predicate AnswersUnder(answers: seq<Answer>, id: string) {
    exists j :: 0 <= j < |answers| && answers[j].id == id
  }

  /** In a paired transcript the message after a reply that calls tools holds as many results as the
      reply has tool_use blocks, one for each of them and none for anything else. */
  lemma PairedMeans(h: seq<Message>, i: nat)
    requires Paired(h) && i < |h| && h[i].Assistant? && CallsAt(h[i].parts, |h[i].parts|) != {}
    ensures i + 1 < |h| && h[i + 1].Answers?
    ensures |h[i + 1].answers| == |CallsAt(h[i].parts, |h[i].parts|)|
    ensures forall id :: CallsUnder(h[i].parts, id) <==> AnswersUnder(h[i + 1].answers, id)
  {
    var parts := h[i].parts;
    UsesCounted(parts, |parts|);
    assert parts[..|parts|] == parts;
    assert AnsweredAt(h, i);
    forall id
      ensures CallsUnder(parts, id) <==> AnswersUnder(h[i + 1].answers, id)
    {
      SameUnder(parts, h[i + 1].answers, id);
    }
  }

  lemma SameUnder(parts: seq<Part>, answers: seq<Answer>, id: string)
    requires Answering(ToolUses(parts), answers)
    ensures CallsUnder(parts, id) <==> AnswersUnder(answers, id)
  {
    if k :| 0 <= k < |parts| && parts[k].ToolUse? && parts[k].id == id {
      var j := UseListed(parts, k);
      assert answers[j].id == id;
    }
    if j :| 0 <= j < |answers| && answers[j].id == id {
      assert ToolUses(parts)[j] in parts;
    }
  }

  /** The count of tool calls is the number of tool_use blocks of all replies. */
  lemma CountMeans(h: seq<Message>, m: Message)
    ensures CountToolUses([]) == 0
    ensures CountToolUses(h + [m])
      == CountToolUses(h) + if m.Assistant? then |CallsAt(m.parts, |m.parts|)| else 0
  {
    CountAppend(h, m);
    if m.Assistant? {
      UsesCounted(m.parts, |m.parts|);
      assert m.parts[..|m.parts|] == m.parts;
    }
  }

  // ------------------------------------------------------------ loads and what they cost

  /** A call of the skill tool that returned a skill, as the load it is booked as: under its own id, for
      the characters of its result, and as an asset only when a non-empty one was asked for. */
  predicate LoadedBy(use: Part, outcome: Outcome, load: Load) {
    && use.ToolUse? && use.name == "load_skill" && outcome.Done? && outcome.skill == Some(load.name)
    && load.id == use.id && load.chars == |outcome.text|
    && load.asset == if use.asset.Some? && use.asset.value != "" then use.asset else None
  }

  /** Exactly the successful calls of the skill tool are booked, when skills are on. */
  lemma {:induction false} LoadsIff(skills: bool, uses: seq<Part>, outcomes: seq<Outcome>, n: nat, load: Load)
    requires n <= |uses| && n <= |outcomes|
    ensures load in LoadsOf(skills, uses, outcomes, n) <==>
      skills && exists k: nat :: k < n && LoadedBy(uses[k], outcomes[k], load)
  {
    if n > 0 {
      LoadsIff(skills, uses, outcomes, n - 1, load);
      var few := LoadsOf(skills, uses, outcomes, n - 1);
      var own := if IsLoad(skills, uses[n - 1], outcomes[n - 1]) then [LoadOf(uses[n - 1], outcomes[n - 1])] else [];
      assert LoadsOf(skills, uses, outcomes, n) == few + own;
      assert load in own <==> skills && LoadedBy(uses[n - 1], outcomes[n - 1], load);
    }
  }

  /** The characters of an index are the sum over its entries, whatever their order. */
  lemma {:induction false} CharsAdd(a: seq<Entry>, b: seq<Entry>)
    ensures SumChars(a + b) == SumChars(a) + SumChars(b)
  {
    if a == [] {
      assert a + b == b;
    } else {
      assert (a + b)[1..] == a[1..] + b;
      CharsAdd(a[1..], b);
    }
  }

  lemma CharsOfOne(e: Entry)
    ensures SumChars([]) == 0 && SumChars([e]) == e.chars
  {
    assert [e][1..] == [];
  }

  /** An index with one more entry fits exactly when there is room for it under both caps. */
  lemma FitsIff(loaded: seq<Entry>, e: Entry, limits: Limits)
    ensures Fits(loaded + [e], limits) <==>
      |loaded| + 1 <= limits.maxLoaded && SumChars(loaded) + e.chars <= limits.maxChars
    ensures Fits([], limits) <==> 0 <= limits.maxLoaded && 0 <= limits.maxChars
  {
    CharsAdd(loaded, [e]);
    CharsOfOne(e);
  }

  /** What the index calls the size of a load is the length of the text the transcript holds for it. */
  lemma HeldInFullMeans(h: seq<Message>, id: string, chars: nat, text: string)
    requires Held(h, id) in {Some(Payload(text)), Some(Picture(text))}
    ensures HeldInFull(h, id, chars) <==> chars == |text|
  {
  }

  // ------------------------------------------------------------ what a settled round leaves

  predicate Untouched(b: Book, r: Book, id: string) {
    id !in r.booked && Held(r.history, id) == Held(b.history, id)
  }

  predicate NoneNamed(loads: seq<Load>, id: string) {
    forall i :: 0 <= i < |loads| ==> loads[i].id != id
  }

  lemma RecordUntouched(b: Book, p: Book, limits: Limits, load: Load, id: string)
    requires Agrees(p) && Recordable(p, load) && Untouched(b, p, id) && load.id != id
    ensures Untouched(b, Record(p, limits, load), id)
  {
    RecordFrame(p, limits, load, id);
  }

  lemma RecordableNext(b: Book, limits: Limits, loads: seq<Load>, n: nat, p: Book)
    requires Agrees(b) && AllRecordable(b, loads, 0) && n < |loads| && p == RecordAll(b, limits, loads, n)
    ensures Agrees(p) && Recordable(p, loads[n])
  {
    RecordAllSound(b, limits, loads, n);
  }

  lemma RecordOneMore(b: Book, limits: Limits, loads: seq<Load>, n: nat, p: Book, id: string) returns (r: Book)
    requires Agrees(b) && AllRecordable(b, loads, 0) && n < |loads| && NoneNamed(loads, id)
    requires p == RecordAll(b, limits, loads, n) && Untouched(b, p, id)
    ensures r == RecordAll(b, limits, loads, n + 1) && Untouched(b, r, id)
  {
    RecordableNext(b, limits, loads, n, p);
    r := Record(p, limits, loads[n]);
    RecordUntouched(b, p, limits, loads[n], id);
  }

  lemma {:induction false} RecordAllFrame(b: Book, limits: Limits, loads: seq<Load>, n: nat, id: string)
    returns (r: Book)
    requires Agrees(b) && AllRecordable(b, loads, 0) && n <= |loads| && id !in b.booked && NoneNamed(loads, id)
    ensures r == RecordAll(b, limits, loads, n) && Untouched(b, r, id)
  {
    if n == 0 {
      r := b;
    } else {
      var p := RecordAllFrame(b, limits, loads, n - 1, id);
      r := RecordOneMore(b, limits, loads, n - 1, p, id);
    }
  }

  lemma KeptWhenRecorded(cfg: Config, full: Book, uses: seq<Part>, outcomes: seq<Outcome>, k: nat)
    requires k < |uses| <= |outcomes| && forall i :: 0 <= i < |uses| ==> uses[i].ToolUse?
    requires forall i, j :: 0 <= i < j < |uses| ==> uses[i].id != uses[j].id
    requires Agrees(full) && AllRecordable(full, LoadsOf(cfg.skills, uses, outcomes, |uses|), 0)
    requires uses[k].id !in full.booked && forall load :: !LoadedBy(uses[k], outcomes[k], load)
    ensures var loads := LoadsOf(cfg.skills, uses, outcomes, |uses|);
      Untouched(full, RecordAll(full, cfg.limits, loads, |loads|), uses[k].id)
  {
    var loads := LoadsOf(cfg.skills, uses, outcomes, |uses|);
    NotAmongLoads(cfg.skills, uses, outcomes, k, loads);
    var r := RecordAllFrame(full, cfg.limits, loads, |loads|, uses[k].id);
  }

  /** After a round whose calls all returned, the result of every call that is not a load is held as it
      was returned. */
  lemma ResultsAreHeld(cfg: Config, s: State, parts: seq<Part>, outcomes: seq<Outcome>, k: nat)
    requires Sound(s.book) && NewIds(ToolUses(parts), s.book.history)
    requires |outcomes| >= |ToolUses(parts)| && forall i :: 0 <= i < |ToolUses(parts)| ==> outcomes[i].Done?
    requires k < |ToolUses(parts)| && forall load :: !LoadedBy(ToolUses(parts)[k], outcomes[k], load)
    ensures var g := Settle(cfg, Hear(s, parts), ToolUses(parts), outcomes).book.history;
      Held(g, ToolUses(parts)[k].id)
      == Some(if outcomes[k].picture then Picture(outcomes[k].text) else Payload(outcomes[k].text))
  {
    SettledRecordable(cfg, s.book, parts, outcomes);
    HeldWhenSettled(s.book, parts, outcomes, k);
    KeptWhenRecorded(cfg, s.book.(history := Settled(s.book.history, parts, outcomes)), ToolUses(parts), outcomes, k);
  }

  lemma NotAmongLoads(skills: bool, uses: seq<Part>, outcomes: seq<Outcome>, k: nat, loads: seq<Load>)
    requires k < |uses| <= |outcomes| && forall i :: 0 <= i < |uses| ==> uses[i].ToolUse?
    requires forall i, j :: 0 <= i < j < |uses| ==> uses[i].id != uses[j].id
    requires loads == LoadsOf(skills, uses, outcomes, |uses|)
    requires forall load :: !LoadedBy(uses[k], outcomes[k], load)
    ensures NoneNamed(loads, uses[k].id)
  {
    forall i | 0 <= i < |loads|
      ensures loads[i].id != uses[k].id
    {
      assert loads[i] in loads;
      LoadsIff(skills, uses, outcomes, |uses|, loads[i]);
      var j: nat :| j < |uses| && LoadedBy(uses[j], outcomes[j], loads[i]);
    }
  }

  lemma HeldWhenSettled(b: Book, parts: seq<Part>, outcomes: seq<Outcome>, k: nat)
    requires Sound(b) && NewIds(ToolUses(parts), b.history) && k < |ToolUses(parts)| <= |outcomes|
    requires forall i :: 0 <= i < |ToolUses(parts)| ==> outcomes[i].Done?
    ensures ToolUses(parts)[k].id !in b.booked
    ensures Held(Settled(b.history, parts, outcomes), ToolUses(parts)[k].id)
      == Some(if outcomes[k].picture then Picture(outcomes[k].text) else Payload(outcomes[k].text))
  {
    var uses := ToolUses(parts);
    var answers := AnswersOf(uses, outcomes, |uses|);
    SayAgrees(b, Assistant(parts));
    AnswerAgrees(Say(b, Assistant(parts)), answers);
    assert answers[k].id == uses[k].id;
  }

  /** A reply all of whose calls return is answered and the turn goes on, unless it has reached thirty
      calls; a reply without calls ends it. */
  lemma RoundGoesOn(cfg: Config, w: World, s: State, parts: seq<Part>, outcomes: seq<Outcome>)
    requires w.rounds(s.asked) == Replied(parts, outcomes) && |outcomes| >= |ToolUses(parts)|
    requires forall i :: 0 <= i < |ToolUses(parts)| ==> outcomes[i].Done?
    requires Check(cfg.caps, s.stopped, CountToolUses(s.book.history), |s.requests|, w.clock(s.asked)).None?
    ensures var (next, n) := (OneRound(cfg, w, s), |CallsAt(parts, |parts|)|);
      && (n == 0 ==> next.Stop? && next.end == ModelEnded && next.state.calls == s.calls)
      && (n > 0 ==> next.state.calls == s.calls + n
                    && (if s.calls + n >= 30 then next.Stop? && next.end == CallLimit else next.Go?))
      && |next.state.requests| == |s.requests| + 1
  {
    UsesCounted(parts, |parts|);
    assert parts[..|parts|] == parts;
  }

  // ------------------------------------------------------------ replies that read like an error

  /** Some reply of the conversation has a text that begins with the engine's error prefix. */
  predicate ReadsLikeError(m: Message) {
    m.Assistant? && exists k :: 0 <= k < |m.parts| && m.parts[k].Prose? && "[chat error] " <= m.parts[k].text
  }

  predicate SomeReadsLikeError(h: seq<Message>) {
    exists i :: 0 <= i < |h| && ReadsLikeError(h[i])
  }

  lemma OneMoreReads(h: seq<Message>, m: Message)
    ensures SomeReadsLikeError(h + [m]) <==> SomeReadsLikeError(h) || ReadsLikeError(m)
  {
    var g := h + [m];
    if i :| 0 <= i < |h| && ReadsLikeError(h[i]) {
      assert ReadsLikeError(g[i]);
    }
    if ReadsLikeError(m) {
      assert ReadsLikeError(g[|h|]);
    }
  }

  lemma ReshapedReads(h: seq<Message>, g: seq<Message>)
    requires Reshaped(h, g)
    ensures SomeReadsLikeError(h) <==> SomeReadsLikeError(g)
  {
    forall i | 0 <= i < |h|
      ensures ReadsLikeError(h[i]) <==> ReadsLikeError(g[i])
    {
      assert SameShape(h[i], g[i]);
    }
  }

  lemma RepairReads(h: seq<Message>)
    ensures SomeReadsLikeError(Repair(h)) <==> SomeReadsLikeError(h)
  {
    if Dangling(h) {
      OneMoreReads(h, Answers(Interruptions(Calls(h[|h| - 1]))));
    }
  }

  predicate MarkedRight(s: State) {
    s.marked <==> SomeReadsLikeError(s.book.history)
  }

  lemma HearMarks(s: State, parts: seq<Part>)
    requires MarkedRight(s)
    ensures MarkedRight(Hear(s, parts))
  {
    OneMoreReads(s.book.history, Assistant(parts));
  }

  lemma SettleMarks(cfg: Config, s: State, uses: seq<Part>, outcomes: seq<Outcome>)
    requires MarkedRight(s) && forall i :: 0 <= i < |uses| ==> uses[i].ToolUse? && OutcomeOf(outcomes, i).Done?
    ensures MarkedRight(Settle(cfg, s, uses, outcomes))
  {
    var full := Say(s.book, Answers(AnswersOf(uses, outcomes, |uses|)));
    var loads := LoadsOf(cfg.skills, uses, outcomes, |uses|);
    OneMoreReads(s.book.history, Answers(AnswersOf(uses, outcomes, |uses|)));
    RecordAllReshapes(full, cfg.limits, loads, |loads|);
    ReshapedReads(full.history, RecordAll(full, cfg.limits, loads, |loads|).history);
  }

  lemma FollowMarks(cfg: Config, heard: State, uses: seq<Part>, outcomes: seq<Outcome>)
    requires MarkedRight(heard) && forall i :: 0 <= i < |uses| ==> uses[i].ToolUse?
    ensures MarkedRight(Follow(cfg, heard, uses, outcomes).state)
  {
    RepairReads(heard.book.history);
    if FirstBad(uses, outcomes, 0) == |uses| {
      SettleMarks(cfg, heard, uses, outcomes);
    }
  }

  lemma RoundMarks(cfg: Config, w: World, s: State)
    requires MarkedRight(s)
    ensures MarkedRight(OneRound(cfg, w, s).state)
  {
    RepairReads(s.book.history);
    match w.rounds(s.asked) {
      case Replied(parts, outcomes) =>
        HearMarks(Ask(w, s), parts);
        FollowMarks(cfg, Hear(Ask(w, s), parts), ToolUses(parts), outcomes);
      case _ =>
    }
  }

  lemma {:induction false} LoopMarks(cfg: Config, w: World, s: State)
    requires s.calls < MAX_TOOL_CALLS_PER_TURN && MarkedRight(s)
    ensures MarkedRight(Loop(cfg, w, s).0)
    decreases MAX_TOOL_CALLS_PER_TURN - s.calls
  {
    RoundMarks(cfg, w, s);
    var next := OneRound(cfg, w, s);
    if next.Go? {
      LoopMarks(cfg, w, next.state);
    }
  }

  /** A run is marked as failed by its text exactly when some reply of its transcript has a text that
      begins with the engine's error prefix. */
  lemma MarkedIff(skills: bool, limits: Limits, budget: Budget, input: Input)
    ensures var t := Run(skills, limits, budget, input).0;
      t.marked <==> SomeReadsLikeError(t.book.history)
  {
    var prompted := FRESH.(book := Say(FRESH.book, Prompt(input.message)));
    OneMoreReads([], Prompt(input.message));
    RepairReads([]);
    RepairReads(prompted.book.history);
    LoopMarks(BenchConfig(skills, limits, budget), input.world, prompted);
  }

  /** So a run is within budget exactly when the model ended its own turn and no reply reads like the
      engine's error message. */
  lemma WithinBudgetIff(skills: bool, limits: Limits, budget: Budget, input: Input)
    ensures var (t, end) := Run(skills, limits, budget, input);
      VerdictOf(budget, t, end) == ModelEndedTurn <==> end == ModelEnded && !SomeReadsLikeError(t.book.history)
  {
    MarkedIff(skills, limits, budget, input);
    HonestVerdict(skills, limits, budget, input);
  }
}
