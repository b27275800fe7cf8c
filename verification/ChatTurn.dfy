/** One chat turn as a function of what the model, the tools and the clock do: the tool-use loop of
    `agent/chat.py` with the bench's budgeted client in front of it. */
module ChatTurn {
  import opened Options
  import opened Transcript
  import opened SkillIndex

  const MAX_TOOL_CALLS_PER_TURN: nat := 30

  /** How one tool call ends: a rendered result (with the skill it loaded, if it did), an
      exception, or the turn's cancellation. */
  datatype Outcome = Done(text: string, picture: bool, skill: Option<string>) | Raised | Killed

  /** How one `messages.create` ends. */
  datatype Round = ApiRaised | ApiKilled | Replied(parts: seq<Part>, outcomes: seq<Outcome>)

  /** Everything a turn cannot decide: the replies, by number of the request, and the clock. */
  datatype World = World(rounds: nat -> Round, clock: nat -> real)

  datatype Reason = WallClock | ToolCalls | ApiTurns

  /** The ceilings of the budgeted client; the interactive engine has none. */
  datatype Caps = NoCaps | Caps(deadline: Option<real>, maxToolCalls: int, maxApiTurns: int)

  datatype Config = Config(skills: bool, limits: Limits, caps: Caps)

  /** One request that reached the model: when, and how many tool calls its messages held. */
  datatype Request = Request(at: real, toolUses: nat)

  /** `requests` is what the client let through, so its length is the client's `api_turns`. */
  datatype State = State(book: Book, calls: nat, asked: nat, requests: seq<Request>,
                         stopped: Option<Reason>, marked: bool, lastRound: nat)

  datatype End = ModelEnded | CallLimit | Died | Cut

  // ------------------------------------------------------------ the pieces of a round

  /** `BudgetedClient.check`: the new value of `stopped`; the request is refused when it is set. */
  function Check(caps: Caps, stopped: Option<Reason>, toolUses: nat, apiTurns: nat, now: real): Option<Reason> {
    match caps
    case NoCaps => None
    case Caps(deadline, maxToolCalls, maxApiTurns) =>
      if deadline.Some? && now > deadline.value then Some(WallClock)
      else if toolUses >= maxToolCalls then Some(ToolCalls)
      else if apiTurns >= maxApiTurns then Some(ApiTurns)
      else stopped
  }

  function OutcomeOf(outcomes: seq<Outcome>, k: nat): Outcome {
    if k < |outcomes| then outcomes[k] else Raised
  }

  /** The first call that does not return, at or after `k`. */
  function FirstBad(uses: seq<Part>, outcomes: seq<Outcome>, k: nat): (n: nat)
    requires k <= |uses|
    ensures k <= n <= |uses| && (n < |uses| ==> !OutcomeOf(outcomes, n).Done?)
    ensures forall i :: k <= i < n ==> OutcomeOf(outcomes, i).Done?
    decreases |uses| - k
  {
    if k == |uses| || !OutcomeOf(outcomes, k).Done? then k else FirstBad(uses, outcomes, k + 1)
  }

  function Rendered(outcome: Outcome): Body
    requires outcome.Done?
  {
    if outcome.picture then Picture(outcome.text) else Payload(outcome.text)
  }

  /** The results of the first `n` calls. */
  function AnswersOf(uses: seq<Part>, outcomes: seq<Outcome>, n: nat): (answers: seq<Answer>)
    requires n <= |uses| && forall i :: 0 <= i < |uses| ==> uses[i].ToolUse?
    requires forall i :: 0 <= i < n ==> OutcomeOf(outcomes, i).Done?
    ensures |answers| == n
    ensures forall i :: 0 <= i < n ==> answers[i] == Answer(uses[i].id, Rendered(OutcomeOf(outcomes, i)))
  {
    if n == 0 then []
    else AnswersOf(uses, outcomes, n - 1) + [Answer(uses[n - 1].id, Rendered(OutcomeOf(outcomes, n - 1)))]
  }

  /** An asset argument counts only when it is a non-empty string. */
  function AssetOf(use: Part): Option<string>
    requires use.ToolUse?
  {
    if use.asset == Some("") then None else use.asset
  }

  function IsLoad(skills: bool, use: Part, outcome: Outcome): bool {
    skills && use.ToolUse? && use.name == "load_skill" && outcome.Done? && outcome.skill.Some?
  }

  function LoadOf(use: Part, outcome: Outcome): Load
    requires IsLoad(true, use, outcome)
  {
    Load(use.id, outcome.skill.value, AssetOf(use), Rendered(outcome).Size())
  }

  /** The skill loads among the first `n` calls. */
  function LoadsOf(skills: bool, uses: seq<Part>, outcomes: seq<Outcome>, n: nat): (loads: seq<Load>)
    requires n <= |uses|
  {
    if n == 0 then []
    else
      LoadsOf(skills, uses, outcomes, n - 1)
      + if IsLoad(skills, uses[n - 1], OutcomeOf(outcomes, n - 1))
        then [LoadOf(uses[n - 1], OutcomeOf(outcomes, n - 1))] else []
  }

  function RecordAll(b: Book, limits: Limits, loads: seq<Load>, n: nat): Book
    requires n <= |loads|
  {
    if n == 0 then b else Record(RecordAll(b, limits, loads, n - 1), limits, loads[n - 1])
  }

  // The text the bench's recorder reads as a failed turn.
  const ERROR_PREFIX := "[chat error] "

  predicate HasMark(parts: seq<Part>) {
    exists k :: 0 <= k < |parts| && parts[k].Prose? && ERROR_PREFIX <= parts[k].text
  }

  function Say(b: Book, m: Message): Book {
    b.(history := b.history + [m])
  }

  /** The except branch: the transcript is repaired. */
  function Die(s: State): State {
    s.(book := s.book.(history := Repair(s.book.history)))
  }

  /** The assistant's reply is appended before anything it asks for is done. */
  function Hear(s: State, parts: seq<Part>): State {
    s.(book := Say(s.book, Assistant(parts)), marked := s.marked || HasMark(parts), lastRound := |ToolUses(parts)|)
  }

  /** All calls returned: their results are appended, then the loads among them recorded. */
  function Settle(cfg: Config, s: State, uses: seq<Part>, outcomes: seq<Outcome>): State
    requires forall i :: 0 <= i < |uses| ==> uses[i].ToolUse? && OutcomeOf(outcomes, i).Done?
  {
    var loads := LoadsOf(cfg.skills, uses, outcomes, |uses|);
    var book := Say(s.book, Answers(AnswersOf(uses, outcomes, |uses|)));
    s.(book := RecordAll(book, cfg.limits, loads, |loads|), calls := s.calls + |uses|)
  }

  // ------------------------------------------------------------ the loop and the turn

  /** What one round of the loop leads to. */
  datatype Next = Stop(state: State, end: End) | Go(state: State)

  /** The state once the client has let the next request through. */
  function Ask(w: World, s: State): State {
    s.(stopped := None, asked := s.asked + 1,
       requests := s.requests + [Request(w.clock(s.asked), CountToolUses(s.book.history))])
  }

  /** What follows a reply: nothing to call, a call that does not return, or a settled round. */
  function Follow(cfg: Config, heard: State, uses: seq<Part>, outcomes: seq<Outcome>): (next: Next)
    requires forall i :: 0 <= i < |uses| ==> uses[i].ToolUse?
    ensures next.Go? ==> heard.calls < next.state.calls < MAX_TOOL_CALLS_PER_TURN
    ensures next.state.requests == heard.requests && next.state.asked == heard.asked
    ensures next.state.stopped == heard.stopped && next.state.lastRound == heard.lastRound
  {
    var bad := FirstBad(uses, outcomes, 0);
    if uses == [] then Stop(heard, ModelEnded)
    else if bad < |uses| then
      if OutcomeOf(outcomes, bad).Raised? then Stop(Die(heard), Died) else Stop(heard, Cut)
    else
      var settled := Settle(cfg, heard, uses, outcomes);
      if settled.calls >= MAX_TOOL_CALLS_PER_TURN then Stop(settled, CallLimit) else Go(settled)
  }

  /** One pass through the body of `while True`. */
  function OneRound(cfg: Config, w: World, s: State): (next: Next)
    ensures next.Go? ==> s.calls < next.state.calls < MAX_TOOL_CALLS_PER_TURN
    ensures next.state.stopped
      == Check(cfg.caps, s.stopped, CountToolUses(s.book.history), |s.requests|, w.clock(s.asked))
  {
    var stopped := Check(cfg.caps, s.stopped, CountToolUses(s.book.history), |s.requests|, w.clock(s.asked));
    if stopped.Some? then Stop(Die(s.(stopped := stopped)), Died)
    else
      match w.rounds(s.asked)
      case ApiRaised => Stop(Die(Ask(w, s)), Died)
      case ApiKilled => Stop(Ask(w, s), Cut)
      case Replied(parts, outcomes) => Follow(cfg, Hear(Ask(w, s), parts), ToolUses(parts), outcomes)
  }

  /** The `while True` loop. That it is a function at all rests on every round that goes on having
      called at least one tool. */
  function Loop(cfg: Config, w: World, s: State): (State, End)
    requires s.calls < MAX_TOOL_CALLS_PER_TURN
    decreases MAX_TOOL_CALLS_PER_TURN - s.calls
  {
    match OneRound(cfg, w, s)
    case Stop(t, end) => (t, end)
    case Go(t) => Loop(cfg, w, t)
  }

  /** How far a turn gets before its loop: the client or the tool list can already raise. */
  datatype Start = NoClient | NoTools | Ready

  datatype Input = Input(message: string, start: Start, world: World)

  function Turn(cfg: Config, input: Input, s: State): (State, End) {
    var begun := s.(calls := 0, asked := 0, lastRound := 0);
    var prompted := begun.(book := Say(s.book, Prompt(input.message)));
    match input.start
    case NoClient => (Die(begun), Died)
    case NoTools => (Die(prompted), Died)
    case Ready => Loop(cfg, input.world, prompted)
  }

  // ------------------------------------------------------------ fresh ids

  predicate NewIds(uses: seq<Part>, h: seq<Message>)
    requires forall i :: 0 <= i < |uses| ==> uses[i].ToolUse?
  {
    && (forall i :: 0 <= i < |uses| ==> uses[i].id != "" && Held(h, uses[i].id).None?)
    && (forall i, j :: 0 <= i < j < |uses| ==> uses[i].id != uses[j].id)
  }

  predicate Disjoint(a: seq<Part>, b: seq<Part>)
    requires forall i :: 0 <= i < |a| ==> a[i].ToolUse?
    requires forall i :: 0 <= i < |b| ==> b[i].ToolUse?
  {
    forall i, j :: 0 <= i < |a| && 0 <= j < |b| ==> a[i].id != b[j].id
  }

  function UsesOf(w: World, k: nat): (uses: seq<Part>)
    ensures forall i :: 0 <= i < |uses| ==> uses[i].ToolUse?
  {
    if w.rounds(k).Replied? then ToolUses(w.rounds(k).parts) else []
  }

  /** The model's tool_use ids are non-empty, new to the transcript and never repeated. */
  ghost predicate FreshIds(w: World, from: nat, h: seq<Message>) {
    && (forall k: nat :: from <= k ==> NewIds(UsesOf(w, k), h))
    && (forall j: nat, k: nat :: from <= j < k ==> Disjoint(UsesOf(w, j), UsesOf(w, k)))
  }

  // ------------------------------------------------------------ the index agrees, the calls are answered

  ghost predicate Sound(b: Book) {
    Paired(b.history) && Agrees(b)
  }

  lemma SayAgrees(b: Book, m: Message)
    requires Agrees(b) && !m.Answers?
    ensures Agrees(Say(b, m)) && forall id :: Held(Say(b, m).history, id) == Held(b.history, id)
  {
    AppendOther(b.history, m);
  }

  lemma AnswerAgrees(b: Book, answers: seq<Answer>)
    requires Agrees(b) && Unique(answers)
    requires forall k :: 0 <= k < |answers| ==> Held(b.history, answers[k].id).None?
    ensures Agrees(Say(b, Answers(answers)))
    ensures forall k :: 0 <= k < |answers| ==>
              && answers[k].id !in b.booked
              && Held(Say(b, Answers(answers)).history, answers[k].id) == Some(answers[k].body)
  {
    var g := b.history + [Answers(answers)];
    forall id
      ensures Held(g, id) == if Held(b.history, id).Some? then Held(b.history, id) else Lookup(answers, id)
      ensures Unique(AllAnswers(g))
    {
      AppendHeld(b.history, answers, id);
    }
    assert Unique(AllAnswers(g)) by {
      AppendHeld(b.history, answers, "");
    }
    forall id | id in b.booked
      ensures Held(b.history, id).Some?
    {
      LiveLoadsAreIndexed(b, id);
    }
    forall i | 0 <= i < |b.loaded|
      ensures HeldInFull(g, b.loaded[i].id, b.loaded[i].chars)
    {
      assert HeldInFull(b.history, b.loaded[i].id, b.loaded[i].chars);
    }
    forall k | 0 <= k < |answers|
      ensures Held(g, answers[k].id) == Some(answers[k].body)
    {
      LookupAt(answers, k);
    }
  }

  /** Loads that can still be recorded, under different ids. */
  predicate AllRecordable(b: Book, loads: seq<Load>, from: nat) {
    && (forall i :: from <= i < |loads| ==> Recordable(b, loads[i]))
    && (forall i, j :: 0 <= i < j < |loads| ==> loads[i].id != loads[j].id)
  }

  lemma {:induction false} RecordAllSound(b: Book, limits: Limits, loads: seq<Load>, n: nat)
    requires Agrees(b) && AllRecordable(b, loads, 0) && n <= |loads|
    ensures var r := RecordAll(b, limits, loads, n);
            Agrees(r) && AllRecordable(r, loads, n) && Reshaped(b.history, r.history)
  {
    if n > 0 {
      RecordAllSound(b, limits, loads, n - 1);
      var p := RecordAll(b, limits, loads, n - 1);
      var r := Record(p, limits, loads[n - 1]);
      RecordAgrees(p, limits, loads[n - 1]);
      forall i | n <= i < |loads|
        ensures Recordable(r, loads[i])
      {
        RecordFrame(p, limits, loads[n - 1], loads[i].id);
      }
      RecordReshapes(p, limits, loads[n - 1]);
      ReshapedTransitive(b.history, p.history, r.history);
    }
  }

  lemma {:induction false} EvictReshapes(b: Book, limits: Limits, keep: string)
    ensures Reshaped(b.history, Evict(b, limits, keep).history)
    decreases |b.loaded|
  {
    var k := Victim(b.loaded, keep);
    if !Fits(b.loaded, limits) && k < |b.loaded| {
      var d := Drop(b, k, Unloaded(b.loaded[k].name, b.loaded[k].asset));
      EvictReshapes(d, limits, keep);
      ReshapedTransitive(b.history, d.history, Evict(d, limits, keep).history);
    }
  }

  lemma RecordReshapes(b: Book, limits: Limits, load: Load)
    ensures Reshaped(b.history, Record(b, limits, load).history)
  {
    var e := Enter(Supersede(b, load), load);
    EvictReshapes(e, limits, KeyOf(load.name, load.asset));
    ReshapedTransitive(b.history, e.history, Record(b, limits, load).history);
  }

  lemma {:induction false} RecordAllReshapes(b: Book, limits: Limits, loads: seq<Load>, n: nat)
    requires n <= |loads|
    ensures Reshaped(b.history, RecordAll(b, limits, loads, n).history)
  {
    if n > 0 {
      var p := RecordAll(b, limits, loads, n - 1);
      RecordAllReshapes(b, limits, loads, n - 1);
      RecordReshapes(p, limits, loads[n - 1]);
      ReshapedTransitive(b.history, p.history, RecordAll(b, limits, loads, n).history);
    }
  }

  /** Which ids are held does not depend on what the results say. */
  lemma {:induction false} ReshapedHeld(h: seq<Message>, g: seq<Message>, id: string)
    requires Reshaped(h, g)
    ensures Held(h, id).Some? <==> Held(g, id).Some?
  {
    if h != [] {
      var n := |h| - 1;
      ReshapedHeld(h[..n], g[..n], id);
      assert h == h[..n] + [h[n]] && g == g[..n] + [g[n]];
      AppendAll(h[..n], h[n]);
      AppendAll(g[..n], g[n]);
      assert SameShape(h[n], g[n]);
      var (a, b) := (if h[n].Answers? then h[n].answers else [], if g[n].Answers? then g[n].answers else []);
      LookupAppend(AllAnswers(h[..n]), a, id);
      LookupAppend(AllAnswers(g[..n]), b, id);
      LookupFinds(a, id);
      LookupFinds(b, id);
      if k :| 0 <= k < |a| && a[k].id == id {
        assert b[k].id == id;
      }
    }
  }

  /** This load reports the result of call `k`. */
  predicate FromCall(load: Load, uses: seq<Part>, outcomes: seq<Outcome>, k: nat) {
    && k < |uses| && uses[k].ToolUse? && OutcomeOf(outcomes, k).Done?
    && load.id == uses[k].id && load.chars == Rendered(OutcomeOf(outcomes, k)).Size()
  }

  /** This load reports the result of one of the first `n` calls. */
  predicate Reports(load: Load, uses: seq<Part>, outcomes: seq<Outcome>, n: nat) {
    exists k: nat :: k < n && FromCall(load, uses, outcomes, k)
  }

  lemma {:induction false} LoadsOfCalls(skills: bool, uses: seq<Part>, outcomes: seq<Outcome>, n: nat)
    requires n <= |uses| && forall i :: 0 <= i < |uses| ==> uses[i].ToolUse?
    requires forall i, j :: 0 <= i < j < |uses| ==> uses[i].id != uses[j].id
    ensures forall load :: load in LoadsOf(skills, uses, outcomes, n) ==> Reports(load, uses, outcomes, n)
    ensures forall i, j :: 0 <= i < j < |LoadsOf(skills, uses, outcomes, n)| ==>
              LoadsOf(skills, uses, outcomes, n)[i].id != LoadsOf(skills, uses, outcomes, n)[j].id
  {
    if n > 0 {
      LoadsOfCalls(skills, uses, outcomes, n - 1);
      var p, last := LoadsOf(skills, uses, outcomes, n - 1), OutcomeOf(outcomes, n - 1);
      forall load | load in p
        ensures Reports(load, uses, outcomes, n) && load.id != uses[n - 1].id
      {
        var k: nat :| k < n - 1 && FromCall(load, uses, outcomes, k);
      }
      if IsLoad(skills, uses[n - 1], last) {
        assert FromCall(LoadOf(uses[n - 1], last), uses, outcomes, n - 1);
        assert LoadsOf(skills, uses, outcomes, n) == p + [LoadOf(uses[n - 1], last)];
      }
    }
  }

  /** The transcript of a settled round before its loads are recorded. */
  function Settled(h: seq<Message>, parts: seq<Part>, outcomes: seq<Outcome>): seq<Message>
    requires forall i :: 0 <= i < |ToolUses(parts)| ==> OutcomeOf(outcomes, i).Done?
  {
    h + [Assistant(parts)] + [Answers(AnswersOf(ToolUses(parts), outcomes, |ToolUses(parts)|))]
  }

  lemma SettledRecordable(cfg: Config, b: Book, parts: seq<Part>, outcomes: seq<Outcome>)
    requires Sound(b) && NewIds(ToolUses(parts), b.history)
    requires forall i :: 0 <= i < |ToolUses(parts)| ==> OutcomeOf(outcomes, i).Done?
    ensures var full := b.(history := Settled(b.history, parts, outcomes));
            Sound(full) && AllRecordable(full, LoadsOf(cfg.skills, ToolUses(parts), outcomes, |ToolUses(parts)|), 0)
  {
    var uses := ToolUses(parts);
    var answers := AnswersOf(uses, outcomes, |uses|);
    var heard := Say(b, Assistant(parts));
    SayAgrees(b, Assistant(parts));
    AppendAnswered(b.history, Assistant(parts));
    AnswerAgrees(heard, answers);
    AppendAnswers(heard.history, answers);
    var full := Say(heard, Answers(answers));
    var loads := LoadsOf(cfg.skills, uses, outcomes, |uses|);
    LoadsOfCalls(cfg.skills, uses, outcomes, |uses|);
    forall i | 0 <= i < |loads|
      ensures Recordable(full, loads[i])
    {
      assert loads[i] in loads;
      var k: nat :| k < |uses| && FromCall(loads[i], uses, outcomes, k);
      assert answers[k].id == loads[i].id;
    }
  }

  /** A round whose calls all return leaves the turn sound. */
  lemma SettleSound(cfg: Config, s: State, parts: seq<Part>, outcomes: seq<Outcome>)
    requires Sound(s.book) && NewIds(ToolUses(parts), s.book.history)
    requires forall i :: 0 <= i < |ToolUses(parts)| ==> OutcomeOf(outcomes, i).Done?
    ensures var next := Settle(cfg, Hear(s, parts), ToolUses(parts), outcomes);
            Sound(next.book) && Reshaped(Settled(s.book.history, parts, outcomes), next.book.history)
  {
    var full := s.book.(history := Settled(s.book.history, parts, outcomes));
    var loads := LoadsOf(cfg.skills, ToolUses(parts), outcomes, |ToolUses(parts)|);
    SettledRecordable(cfg, s.book, parts, outcomes);
    RecordAllSound(full, cfg.limits, loads, |loads|);
    ReshapedPairs(full.history, RecordAll(full, cfg.limits, loads, |loads|).history);
  }

  /** What is held after a settled round: what was, and the round's own calls. */
  lemma SettleHeld(h: seq<Message>, parts: seq<Part>, outcomes: seq<Outcome>, g: seq<Message>, id: string)
    requires Unique(AllAnswers(h)) && NewIds(ToolUses(parts), h)
    requires forall i :: 0 <= i < |ToolUses(parts)| ==> OutcomeOf(outcomes, i).Done?
    requires Reshaped(Settled(h, parts, outcomes), g)
    requires Held(h, id).None? && forall k :: 0 <= k < |ToolUses(parts)| ==> ToolUses(parts)[k].id != id
    ensures Held(g, id).None?
  {
    var answers := AnswersOf(ToolUses(parts), outcomes, |ToolUses(parts)|);
    AppendOther(h, Assistant(parts));
    AppendHeld(h + [Assistant(parts)], answers, id);
    LookupFinds(answers, id);
    ReshapedHeld(Settled(h, parts, outcomes), g, id);
  }

  lemma SettleFresh(cfg: Config, w: World, s: State, parts: seq<Part>, outcomes: seq<Outcome>)
    requires Sound(s.book) && FreshIds(w, s.asked, s.book.history) && w.rounds(s.asked) == Replied(parts, outcomes)
    requires forall i :: 0 <= i < |ToolUses(parts)| ==> OutcomeOf(outcomes, i).Done?
    ensures var next := Settle(cfg, Hear(Ask(w, s), parts), ToolUses(parts), outcomes);
            Sound(next.book) && FreshIds(w, next.asked, next.book.history)
  {
    assert UsesOf(w, s.asked) == ToolUses(parts);
    SettleSound(cfg, Ask(w, s), parts, outcomes);
    var next := Settle(cfg, Hear(Ask(w, s), parts), ToolUses(parts), outcomes);
    forall k: nat | s.asked + 1 <= k
      ensures NewIds(UsesOf(w, k), next.book.history)
    {
      var later := UsesOf(w, k);
      assert NewIds(later, s.book.history) && Disjoint(UsesOf(w, s.asked), later);
      forall i | 0 <= i < |later|
        ensures Held(next.book.history, later[i].id).None?
      {
        SettleHeld(s.book.history, parts, outcomes, next.book.history, later[i].id);
      }
    }
  }

  lemma DieSound(b: Book)
    requires PairedButLast(b.history) && Agrees(b)
    requires Dangling(b.history) ==> NewIds(Calls(b.history[|b.history| - 1]), b.history)
    ensures Sound(b.(history := Repair(b.history)))
  {
    RepairRestores(b.history);
    if Dangling(b.history) {
      AnswerAgrees(b, Interruptions(Calls(b.history[|b.history| - 1])));
    }
  }

  /** A reply on top of a sound book: paired but for the last message, and repairable. */
  lemma HearOpen(b: Book, parts: seq<Part>)
    requires Sound(b) && NewIds(ToolUses(parts), b.history)
    ensures var heard := Say(b, Assistant(parts));
            && PairedButLast(heard.history) && Agrees(heard) && NewIds(ToolUses(parts), heard.history)
            && (ToolUses(parts) == [] ==> Sound(heard))
  {
    SayAgrees(b, Assistant(parts));
    AppendAnswered(b.history, Assistant(parts));
  }

  /** What the end of a turn leaves: all calls answered and the index in agreement, except that a
      cancelled turn may still lack its last answers, which repair supplies. */
  ghost predicate Finished(b: Book, end: End) {
    && Agrees(b)
    && (end != Cut ==> Paired(b.history))
    && (end == Cut ==> PairedButLast(b.history) && Paired(Repair(b.history)))
  }

  /** The ends of a round in which some call did not return, or none was made. */
  lemma HeardFinished(b: Book, parts: seq<Part>)
    requires Sound(b) && NewIds(ToolUses(parts), b.history)
    ensures var heard := Say(b, Assistant(parts));
            && Finished(heard, Cut) && Finished(heard.(history := Repair(heard.history)), Died)
            && (ToolUses(parts) == [] ==> Finished(heard, ModelEnded))
  {
    var heard := Say(b, Assistant(parts));
    HearOpen(b, parts);
    RepairRestores(heard.history);
    DieSound(heard);
  }

  /** A sound transcript needs no repair. */
  lemma SoundNeedsNoRepair(b: Book)
    requires Sound(b)
    ensures Repair(b.history) == b.history && Finished(b, Died) && Finished(b, Cut)
  {
    RepairRestores(b.history);
  }

  /** A round ends well, or leaves a state the loop can go on from. */
  ghost predicate RoundGood(w: World, next: Next) {
    match next
    case Stop(t, end) => Finished(t.book, end)
    case Go(t) => Sound(t.book) && FreshIds(w, t.asked, t.book.history)
  }

  lemma UnsettledSound(cfg: Config, w: World, s: State, parts: seq<Part>, outcomes: seq<Outcome>)
    requires Sound(s.book) && NewIds(ToolUses(parts), s.book.history)
    requires ToolUses(parts) == [] || FirstBad(ToolUses(parts), outcomes, 0) < |ToolUses(parts)|
    ensures RoundGood(w, Follow(cfg, Hear(Ask(w, s), parts), ToolUses(parts), outcomes))
  {
    HeardFinished(s.book, parts);
  }

  lemma FollowSound(cfg: Config, w: World, s: State, parts: seq<Part>, outcomes: seq<Outcome>)
    requires Sound(s.book) && FreshIds(w, s.asked, s.book.history) && w.rounds(s.asked) == Replied(parts, outcomes)
    ensures RoundGood(w, Follow(cfg, Hear(Ask(w, s), parts), ToolUses(parts), outcomes))
  {
    assert ToolUses(parts) == UsesOf(w, s.asked);
    if ToolUses(parts) != [] && FirstBad(ToolUses(parts), outcomes, 0) == |ToolUses(parts)| {
      SettleFresh(cfg, w, s, parts, outcomes);
    } else {
      UnsettledSound(cfg, w, s, parts, outcomes);
    }
  }

  lemma RoundSound(cfg: Config, w: World, s: State)
    requires Sound(s.book) && FreshIds(w, s.asked, s.book.history)
    ensures RoundGood(w, OneRound(cfg, w, s))
  {
    SoundNeedsNoRepair(s.book);
    if w.rounds(s.asked).Replied? {
      FollowSound(cfg, w, s, w.rounds(s.asked).parts, w.rounds(s.asked).outcomes);
    }
  }

  /** However the loop ends, except by cancellation, every call of the transcript is answered and
      the index agrees with it. */
  lemma {:induction false} LoopSound(cfg: Config, w: World, s: State)
    requires s.calls < MAX_TOOL_CALLS_PER_TURN
    requires Sound(s.book) && FreshIds(w, s.asked, s.book.history)
    ensures Finished(Loop(cfg, w, s).0.book, Loop(cfg, w, s).1)
    decreases MAX_TOOL_CALLS_PER_TURN - s.calls
  {
    RoundSound(cfg, w, s);
    var next := OneRound(cfg, w, s);
    if next.Go? {
      LoopSound(cfg, w, next.state);
    }
  }

  lemma PromptSound(b: Book, message: string, w: World)
    requires Sound(b) && FreshIds(w, 0, b.history)
    ensures Sound(Say(b, Prompt(message))) && FreshIds(w, 0, Say(b, Prompt(message)).history)
  {
    SayAgrees(b, Prompt(message));
    AppendAnswered(b.history, Prompt(message));
    forall k: nat
      ensures NewIds(UsesOf(w, k), Say(b, Prompt(message)).history)
    {
      assert NewIds(UsesOf(w, k), b.history);
    }
  }

  /** One whole turn. */
  lemma TurnSound(cfg: Config, input: Input, s: State)
    requires Sound(s.book) && FreshIds(input.world, 0, s.book.history)
    ensures Finished(Turn(cfg, input, s).0.book, Turn(cfg, input, s).1)
  {
    var prompted := Say(s.book, Prompt(input.message));
    PromptSound(s.book, input.message, input.world);
    SoundNeedsNoRepair(s.book);
    SoundNeedsNoRepair(prompted);
    if input.start == Ready {
      LoopSound(cfg, input.world, s.(calls := 0, asked := 0, lastRound := 0, book := prompted));
    }
  }

  // ------------------------------------------------------------ sequences of turns

  function Turns(cfg: Config, inputs: seq<Input>, s: State): State {
    if inputs == [] then s else Turns(cfg, inputs[1..], Turn(cfg, inputs[0], s).0)
  }

  /** Ids are fresh in every turn, and no turn is cancelled. */
  ghost predicate Orderly(cfg: Config, inputs: seq<Input>, s: State) {
    inputs != [] ==>
      && FreshIds(inputs[0].world, 0, s.book.history)
      && Turn(cfg, inputs[0], s).1 != Cut
      && Orderly(cfg, inputs[1..], Turn(cfg, inputs[0], s).0)
  }

  /** Over every sequence of turns, with exceptions anywhere, the conversation stays sound. */
  lemma {:induction false} TurnsSound(cfg: Config, inputs: seq<Input>, s: State)
    requires Sound(s.book) && Orderly(cfg, inputs, s)
    ensures Sound(Turns(cfg, inputs, s).book)
  {
    if inputs != [] {
      TurnSound(cfg, inputs[0], s);
      TurnsSound(cfg, inputs[1..], Turn(cfg, inputs[0], s).0);
    }
  }

  /** The empty conversation every session starts from. */
  const FRESH := State(Book([], [], {}), 0, 0, [], None, false, 0)

  lemma FreshIsSound()
    ensures Sound(FRESH.book)
  {
  }
}
