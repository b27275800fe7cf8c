/** The engine itself: one session's mutable transcript and skill index, the budgeted client, and
    the turn loop over them, each method proved to compute the corresponding function. */
module ChatEngine {
  import opened Options
  import opened Transcript
  import SkillIndex
  import opened ChatTurn

  /** `_count_tool_uses`. */
  method CountInMessages(messages: seq<Message>) returns (total: nat)
    ensures total == CountToolUses(messages)
  {
    total := 0;
    for i := 0 to |messages|
      invariant total == CountToolUses(messages[..i])
    {
      assert messages[..i + 1][..i] == messages[..i];
      total := total + |Calls(messages[i])|;
    }
    assert messages[..|messages|] == messages;
  }

  class BudgetedClient {
    const caps: Caps
    var stopped: Option<Reason>
    var apiTurns: nat
    var toolCalls: nat
    // Every request let through, for the specification only.
    ghost var requests: seq<Request>

    ghost predicate Valid()
      reads this
    {
      apiTurns == |requests|
    }

    constructor (caps: Caps)
      ensures Valid() && this.caps == caps && requests == [] && stopped == None
    {
      this.caps := caps;
      stopped, apiTurns, toolCalls := None, 0, 0;
      requests := [];
    }

    /** Refuses the request once a ceiling is reached, and counts it otherwise. */
    method CheckRequest(messages: seq<Message>, now: real) returns (ok: bool)
      requires Valid()
      modifies this
      ensures Valid()
      ensures toolCalls == CountToolUses(messages)
      ensures stopped == Check(caps, old(stopped), toolCalls, old(apiTurns), now) && ok == stopped.None?
      ensures requests == if ok then old(requests) + [Request(now, toolCalls)] else old(requests)
    {
      toolCalls := CountInMessages(messages);
      match caps {
        case NoCaps =>
          stopped := None;
        case Caps(deadline, maxToolCalls, maxApiTurns) =>
          if deadline.Some? && now > deadline.value {
            stopped := Some(WallClock);
          } else if toolCalls >= maxToolCalls {
            stopped := Some(ToolCalls);
          } else if apiTurns >= maxApiTurns {
            stopped := Some(ApiTurns);
          }
      }
      ok := stopped.None?;
      if ok {
        apiTurns := apiTurns + 1;
        requests := requests + [Request(now, toolCalls)];
      }
    }
  }

  // ------------------------------------------------------------ replacing in place

  /** Overwriting the first match is the replacement of the flat list. */
  lemma {:induction false} ReplaceIsUpdate(answers: seq<Answer>, j: nat, id: string, body: Body)
    requires j < |answers| && answers[j].id == id
    requires forall i :: 0 <= i < j ==> answers[i].id != id
    ensures Lookup(answers, id).Some? && ReplaceFirst(answers, id, body) == answers[j := Answer(id, body)]
  {
    if j > 0 {
      ReplaceIsUpdate(answers[1..], j - 1, id, body);
    }
  }

  predicate Misses(m: Message, id: string) {
    m.Answers? ==> Lookup(m.answers, id).None?
  }

  lemma {:induction false} UnloadNowhere(h: seq<Message>, id: string, body: Body)
    requires forall i :: 0 <= i < |h| ==> Misses(h[i], id)
    ensures Unload(h, id, body) == h
  {
    if h != [] {
      UnloadNowhere(h[1..], id, body);
    }
  }

  lemma {:induction false} UnloadAt(h: seq<Message>, i: nat, id: string, body: Body)
    requires i < |h| && id != "" && !Misses(h[i], id)
    requires forall k :: 0 <= k < i ==> Misses(h[k], id)
    ensures Unload(h, id, body) == h[i := Answers(ReplaceFirst(h[i].answers, id, body))]
  {
    if i > 0 {
      UnloadAt(h[1..], i - 1, id, body);
    }
  }

  class ChatEngine {
    const skills: bool
    const limits: SkillIndex.Limits
    const client: BudgetedClient
    var history: seq<Message>
    var loaded: seq<SkillIndex.Entry>
    // Every id ever recorded, for the specification only.
    ghost var booked: set<string>

    constructor (skills: bool, limits: SkillIndex.Limits, client: BudgetedClient)
      ensures this.skills == skills && this.limits == limits && this.client == client
      ensures history == [] && loaded == [] && booked == {}
    {
      this.skills, this.limits, this.client := skills, limits, client;
      history, loaded, booked := [], [], {};
    }

    ghost function Book(): SkillIndex.Book
      reads this
    {
      SkillIndex.Book(history, loaded, booked)
    }

    ghost function Cfg(): Config {
      Config(skills, limits, client.caps)
    }

    /** `_unload_in_history`: the first result under this id, wherever it is, gets the new text. */
    method UnloadInHistory(id: string, body: Body)
      modifies this`history
      ensures history == Unload(old(history), id, body)
    {
      if id == "" {
        return;
      }
      for i := 0 to |history|
        invariant history == old(history)
        invariant forall k :: 0 <= k < i ==> Misses(history[k], id)
      {
        if history[i].Answers? {
          var answers := history[i].answers;
          for j := 0 to |answers|
            invariant history == old(history)
            invariant forall k :: 0 <= k < j ==> answers[k].id != id
          {
            if answers[j].id == id {
              ReplaceIsUpdate(answers, j, id, body);
              UnloadAt(history, i, id, body);
              history := history[i := Answers(answers[j := Answer(id, body)])];
              return;
            }
          }
          LookupFinds(answers, id);
        }
      }
      UnloadNowhere(history, id, body);
    }

    /** `_evict`: drops oldest entries until both caps hold or only the one to keep is left. */
    method Evict(keep: string)
      modifies this`history, this`loaded
      ensures Book() == SkillIndex.Evict(old(Book()), limits, keep)
    {
      while !SkillIndex.Fits(loaded, limits)
        invariant SkillIndex.Evict(Book(), limits, keep) == SkillIndex.Evict(old(Book()), limits, keep)
        decreases |loaded|
      {
        var victim := SkillIndex.Victim(loaded, keep);
        if victim == |loaded| {
          return;
        }
        var entry := loaded[victim];
        loaded := SkillIndex.Without(loaded, victim);
        UnloadInHistory(entry.id, Unloaded(entry.name, entry.asset));
      }
    }

    /** `_record_skill`, for a load that succeeded. */
    method RecordSkill(load: SkillIndex.Load)
      modifies this
      ensures Book() == SkillIndex.Record(old(Book()), limits, load)
    {
      var key := SkillIndex.KeyOf(load.name, load.asset);
      var k := SkillIndex.PositionOf(loaded, key);
      if k < |loaded| {
        var previous := loaded[k];
        loaded := SkillIndex.Without(loaded, k);
        if previous.id != "" && previous.id != load.id {
          UnloadInHistory(previous.id, Superseded(load.name, load.asset));
        }
      }
      loaded := loaded + [SkillIndex.Entry(key, load.id, load.chars, load.name, load.asset)];
      booked := booked + {load.id};
      Evict(key);
    }

    /** `_repair_history`. */
    method RepairHistory()
      modifies this`history
      ensures history == Repair(old(history))
    {
      if history == [] || !history[|history| - 1].Assistant? {
        return;
      }
      var dangling := ToolUses(history[|history| - 1].parts);
      if dangling == [] {
        return;
      }
      var answers := [];
      for i := 0 to |dangling|
        invariant |answers| == i
        invariant forall k :: 0 <= k < i ==> answers[k] == Answer(dangling[k].id, Interrupted)
      {
        answers := answers + [Answer(dangling[i].id, Interrupted)];
      }
      assert answers == Interruptions(dangling);
      history := history + [Answers(answers)];
    }

    /** Runs the calls of one reply in order, stopping at the first that does not return. */
    method Execute(uses: seq<Part>, outcomes: seq<Outcome>)
      returns (answers: seq<Answer>, loads: seq<SkillIndex.Load>, bad: nat)
      requires forall i :: 0 <= i < |uses| ==> uses[i].ToolUse?
      ensures bad == FirstBad(uses, outcomes, 0)
      ensures bad == |uses| ==>
        answers == AnswersOf(uses, outcomes, |uses|) && loads == LoadsOf(skills, uses, outcomes, |uses|)
    {
      answers, loads, bad := [], [], 0;
      while bad < |uses|
        invariant bad <= |uses| && FirstBad(uses, outcomes, 0) == FirstBad(uses, outcomes, bad)
        invariant forall i :: 0 <= i < bad ==> OutcomeOf(outcomes, i).Done?
        invariant answers == AnswersOf(uses, outcomes, bad) && loads == LoadsOf(skills, uses, outcomes, bad)
        decreases |uses| - bad
      {
        var use, outcome := uses[bad], OutcomeOf(outcomes, bad);
        if !outcome.Done? {
          return;
        }
        answers := answers + [Answer(use.id, Rendered(outcome))];
        if skills && use.name == "load_skill" && outcome.skill.Some? {
          loads := loads + [LoadOf(use, outcome)];
        }
        bad := bad + 1;
      }
    }

    /** What the turn function says about this engine, given the counters of the running turn. */
    ghost function Now(calls: nat, asked: nat, marked: bool, lastRound: nat): State
      reads this, client
    {
      State(Book(), calls, asked, client.requests, client.stopped, marked, lastRound)
    }

    /** What follows a reply already in the transcript: its calls, their results and their loads.
        `None` lets the loop go on. */
    method Follow(uses: seq<Part>, outcomes: seq<Outcome>, calls: nat, ghost heard: State) returns (end: Option<End>)
      requires forall i :: 0 <= i < |uses| ==> uses[i].ToolUse?
      requires heard.book == Book() && heard.calls == calls
      modifies this
      ensures Next(Book(), if end == None || end == Some(CallLimit) then calls + |uses| else calls, heard, end)
           == ChatTurn.Follow(Cfg(), heard, uses, outcomes)
    {
      if uses == [] {
        return Some(ModelEnded);
      }
      var answers, loads, bad := Execute(uses, outcomes);
      if bad < |uses| {
        if OutcomeOf(outcomes, bad).Killed? {
          return Some(Cut);
        }
        RepairHistory();
        return Some(Died);
      }
      history := history + [Answers(answers)];
      RecordLoads(loads);
      return if calls + |uses| >= MAX_TOOL_CALLS_PER_TURN then Some(CallLimit) else None;
    }

    /** The function's way of saying how a round went. */
    ghost function Next(book: SkillIndex.Book, calls: nat, heard: State, end: Option<End>): ChatTurn.Next {
      var s := heard.(book := book, calls := calls);
      if end.Some? then Stop(s, end.value) else Go(s)
    }

    /** One pass through the loop of `_run_turn_locked`. */
    method RunRound(w: World, calls: nat, asked: nat, marked: bool, lastRound: nat)
      returns (end: Option<End>, calls': nat, marked': bool, lastRound': nat, ghost asked': nat)
      requires client.Valid()
      modifies this, client
      ensures client.Valid() && (end == None ==> asked' == asked + 1)
      ensures Next(Book(), calls', Now(calls', asked', marked', lastRound'), end)
           == ChatTurn.OneRound(Cfg(), w, old(Now(calls, asked, marked, lastRound)))
    {
      ghost var s := Now(calls, asked, marked, lastRound);
      calls', marked', lastRound', asked' := calls, marked, lastRound, asked;
      var ok := client.CheckRequest(history, w.clock(asked));
      if !ok {
        RepairHistory();
        end := Some(Died);
        assert Now(calls, asked, marked, lastRound) == Die(s.(stopped := client.stopped));
        return;
      }
      asked' := asked + 1;
      ghost var a := Ask(w, s);
      assert Now(calls, asked', marked, lastRound) == a;
      match w.rounds(asked) {
        case ApiRaised =>
          RepairHistory();
          end := Some(Died);
        case ApiKilled =>
          end := Some(Cut);
        case Replied(parts, outcomes) =>
          history := history + [Assistant(parts)];
          var uses := ToolUses(parts);
          marked', lastRound' := marked || HasMark(parts), |uses|;
          ghost var heard := Now(calls, asked', marked', lastRound');
          assert heard == Hear(a, parts);
          end := Follow(uses, outcomes, calls, heard);
          if end == None || end == Some(CallLimit) {
            calls' := calls + |uses|;
          }
      }
    }

    /** `_run_turn_locked`. */
    method RunTurn(input: Input) returns (end: End, ghost last: State)
      requires client.Valid()
      modifies this, client
      ensures client.Valid()
      ensures last.book == Book() && last.requests == client.requests && last.stopped == client.stopped
      ensures (last, end) == Turn(Cfg(), input, old(Now(0, 0, false, 0)))
    {
      if input.start == NoClient {
        RepairHistory();
        return Died, Now(0, 0, false, 0);
      }
      history := history + [Prompt(input.message)];
      if input.start == NoTools {
        RepairHistory();
        return Died, Now(0, 0, false, 0);
      }
      var calls, asked, marked, lastRound: nat := 0, 0, false, 0;
      ghost var whole := Loop(Cfg(), input.world, Now(0, 0, false, 0));
      while true
        invariant client.Valid() && calls < MAX_TOOL_CALLS_PER_TURN
        invariant Loop(Cfg(), input.world, Now(calls, asked, marked, lastRound)) == whole
        decreases MAX_TOOL_CALLS_PER_TURN - calls
      {
        var over;
        ghost var reached;
        over, calls, marked, lastRound, reached := RunRound(input.world, calls, asked, marked, lastRound);
        if over.Some? {
          return over.value, Now(calls, reached, marked, lastRound);
        }
        asked := asked + 1;
      }
    }

    /** The loads of one round, recorded after its results were appended. */
    method RecordLoads(loads: seq<SkillIndex.Load>)
      modifies this
      ensures Book() == RecordAll(old(Book()), limits, loads, |loads|)
    {
      for i := 0 to |loads|
        invariant Book() == RecordAll(old(Book()), limits, loads, i)
      {
        RecordSkill(loads[i]);
      }
    }
  }
}
