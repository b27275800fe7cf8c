/** Pruning the session document, seen from outside: what it can change over all future runs, with
    slides in flight. */
module SessionPruning {
  import opened Options
  import opened Sessions

  function Pruned(s: State): State {
    s.(sessions := Prune(s.sessions, s.now))
  }

  /** A session as it was created. */
  predicate SameOrigin(a: Session, b: Session) {
    a.(lastSeen := b.lastSeen) == b
  }

  /** Equal but for rows that cannot authenticate now. */
  ghost predicate SameButDead(s: State, t: State) {
    && s.now == t.now && s.users == t.users && s.pending == t.pending
    && (forall key :: Live(s, key) || Live(t, key) ==>
         Live(s, key) && Live(t, key) && s.sessions[key] == t.sessions[key])
    && (forall key :: key in s.sessions && key in t.sessions ==> SameOrigin(s.sessions[key], t.sessions[key]))
  }

  /** The step is a late slide that brings a session back from the dead. */
  predicate Revives(s: State, step: Step) {
    && step.Land? && step.index < |s.pending|
    && !Live(s, s.pending[step.index].key) && Live(Take(s, step), s.pending[step.index].key)
  }

  lemma SameAnswer(s: State, t: State, key: Digest)
    requires SameButDead(s, t)
    ensures Answer(s, key) == Answer(t, key) && WantsSlide(s, key) == WantsSlide(t, key)
  {
  }

  lemma SameButDeadUse(s: State, t: State, key: Digest)
    requires SameButDead(s, t)
    ensures SameButDead(Take(s, Use(key)), Take(t, Use(key))) && SameButDead(Take(s, Look(key)), Take(t, Look(key)))
  {
    SameAnswer(s, t, key);
  }

  lemma SameButDeadStep(s: State, t: State, step: Step)
    requires SameButDead(s, t) && !step.Land? && !step.Use? && !step.Look? && !step.Create? && !step.Revoke?
    ensures SameButDead(Take(s, step), Take(t, step))
  {
  }

  lemma SameButDeadWrite(s: State, t: State, step: Step)
    requires SameButDead(s, t) && (step.Create? || step.Revoke?)
    ensures SameButDead(Take(s, step), Take(t, step))
  {
  }

  lemma SameButDeadLand(s: State, t: State, step: Step)
    requires SameButDead(s, t) && step.Land? && Revives(s, step) == Revives(t, step)
    ensures SameButDead(Take(s, step), Take(t, step))
  {
  }

  lemma SameButDeadNext(s: State, t: State, step: Step)
    requires SameButDead(s, t) && Revives(s, step) == Revives(t, step)
    ensures SameButDead(Take(s, step), Take(t, step))
    ensures step.Use? || step.Look? ==> Answer(s, step.key) == Answer(t, step.key)
  {
    match step {
      case Land(_) => SameButDeadLand(s, t, step);
      case Use(key) =>
        SameAnswer(s, t, key);
        SameButDeadUse(s, t, key);
      case Look(key) =>
        SameAnswer(s, t, key);
        SameButDeadUse(s, t, key);
      case Create(_, _, _) => SameButDeadWrite(s, t, step);
      case Revoke(_) => SameButDeadWrite(s, t, step);
      case _ => SameButDeadStep(s, t, step);
    }
  }

  /** Every slide that lands revives a session in both runs or in neither. */
  predicate LandsAgree(s: State, t: State, steps: seq<Step>)
    decreases |steps|
  {
    steps != [] ==>
      Revives(s, steps[0]) == Revives(t, steps[0]) && LandsAgree(Take(s, steps[0]), Take(t, steps[0]), steps[1..])
  }

  lemma {:induction false} SameButDeadRun(s: State, t: State, steps: seq<Step>)
    requires SameButDead(s, t) && LandsAgree(s, t, steps)
    ensures Answers(s, steps) == Answers(t, steps)
    decreases |steps|
  {
    if steps != [] {
      SameButDeadNext(s, t, steps[0]);
      SameButDeadRun(Take(s, steps[0]), Take(t, steps[0]), steps[1..]);
    }
  }

  lemma AnswersFirst(s: State, step: Step, rest: seq<Step>)
    ensures Answers(s, [step] + rest)
      == (if step.Use? || step.Look? then [Answer(s, step.key)] else []) + Answers(Take(s, step), rest)
  {
    assert ([step] + rest)[1..] == rest;
  }

  /** A slide that revives a session in one run only is found out by enabling the account and using
      the session. */
  lemma RevivalIsSeen(s: State, t: State, step: Step) returns (probe: seq<Step>)
    requires Revives(s, step) && !Revives(t, step) && SameButDead(s, t)
    ensures Answers(s, [step] + probe) != Answers(t, [step] + probe)
  {
    var key := s.pending[step.index].key;
    var enable := SetUser(s.sessions[key].handle, User("member", false));
    probe := [enable] + ([Look(key)] + []);
    var n, m := Take(Take(s, step), enable), Take(Take(t, step), enable);
    AnswersFirst(s, step, probe);
    AnswersFirst(t, step, probe);
    AnswersFirst(Take(s, step), enable, [Look(key)] + []);
    AnswersFirst(Take(t, step), enable, [Look(key)] + []);
    AnswersFirst(n, Look(key), []);
    AnswersFirst(m, Look(key), []);
    assert !Live(t, key) && !Live(Take(t, step), key);
    assert Answer(m, key) == None && Answer(n, key).Some?;
    assert Answers(s, [step] + probe)[0] == Answer(n, key) && Answers(t, [step] + probe)[0] == Answer(m, key);
  }

  lemma TailsDiffer<T>(front: seq<T>, a: seq<T>, b: seq<T>)
    requires a != b
    ensures front + a != front + b
  {
    assert (front + a)[|front|..] == a && (front + b)[|front|..] == b;
  }

  /** Two runs whose slides do not agree can be told apart. */
  lemma {:induction false} DisagreementIsSeen(s: State, t: State, steps: seq<Step>) returns (probe: seq<Step>)
    requires SameButDead(s, t) && !LandsAgree(s, t, steps)
    ensures Answers(s, probe) != Answers(t, probe)
    decreases |steps|
  {
    var step := steps[0];
    if Revives(s, step) && !Revives(t, step) {
      var rest := RevivalIsSeen(s, t, step);
      probe := [step] + rest;
    } else if Revives(t, step) && !Revives(s, step) {
      var rest := RevivalIsSeen(t, s, step);
      probe := [step] + rest;
    } else {
      SameButDeadNext(s, t, step);
      var rest := DisagreementIsSeen(Take(s, step), Take(t, step), steps[1..]);
      probe := [step] + rest;
      AnswersFirst(s, step, rest);
      AnswersFirst(t, step, rest);
      var own := if step.Use? || step.Look? then [Answer(s, step.key)] else [];
      TailsDiffer(own, Answers(Take(s, step), rest), Answers(Take(t, step), rest));
    }
  }

  lemma PrunedIsSame(s: State)
    ensures SameButDead(Pruned(s), s)
  {
  }

  /** The row died idle, not past its cap, and a resolve that read it at `at` would still find it
      within the sliding window now. */
  predicate Revivable(s: State, slide: Slide) {
    && slide.key in s.sessions
    && s.now - s.sessions[slide.key].lastSeen >= SLIDING
    && s.now < s.sessions[slide.key].expires && s.now - slide.at < SLIDING
  }

  /** What a slide in flight can do: it brings a session back from the dead exactly when the row is
      still in the document, idle too long by now, but not as of the time the resolve read it. */
  lemma LandRevivesIff(s: State, i: nat)
    requires i < |s.pending|
    ensures Revives(s, Land(i)) <==> Revivable(s, s.pending[i])
  {
  }

  /** No slide in flight revives a session, and every live session reaches its cap before it can die
      idle. */
  predicate PastReviving(s: State) {
    && (forall i :: 0 <= i < |s.pending| ==> !Revivable(s, s.pending[i]))
    && (forall key :: key in s.sessions && Live(s, key) ==>
         s.sessions[key].expires <= s.sessions[key].lastSeen + SLIDING)
  }

  lemma NothingRevives(s: State, step: Step)
    requires PastReviving(s)
    ensures !Revives(s, step)
  {
    if step.Land? && step.index < |s.pending| {
      LandRevivesIff(s, step.index);
    }
  }

  /** The step leaves alone what is live, but for signing it out or looking at it. */
  predicate Passive(s: State, step: Step) {
    match step
    case Create(_, handle, _) => handle !in s.users
    case Use(key) => !WantsSlide(s, key)
    case Land(i) => i < |s.pending| ==> !Live(s, s.pending[i].key)
    case Revoke(key) => !Live(s, key)
    case _ => true
  }

  lemma OnlyLiveRowsIrrevivable(s: State, n: State)
    requires forall key :: key in n.sessions ==> Live(n, key)
    ensures forall i :: 0 <= i < |n.pending| ==> !Revivable(n, n.pending[i])
  {
  }

  lemma PassiveLand(s: State, step: Step)
    requires PastReviving(s) && step.Land? && Passive(s, step)
    ensures PastReviving(Take(s, step))
  {
    var n := Take(s, step);
    if step.index < |s.pending| {
      NothingRevives(s, step);
      if s.pending[step.index].key in s.sessions {
        OnlyLiveRowsIrrevivable(s, n);
      } else {
        forall i | 0 <= i < |n.pending|
          ensures !Revivable(n, n.pending[i])
        {
          assert n.pending[i] == s.pending[if i < step.index then i else i + 1];
        }
      }
    }
  }

  lemma PassiveTick(s: State, step: Step)
    requires PastReviving(s) && (step.Tick? || step.Look?)
    ensures PastReviving(Take(s, step))
  {
    var n := Take(s, step);
    forall i | 0 <= i < |n.pending|
      ensures !Revivable(n, n.pending[i])
    {
      if i < |s.pending| {
        assert n.pending[i] == s.pending[i];
        assert !Revivable(s, s.pending[i]);
        var key := n.pending[i].key;
        assert Live(s, key) ==> s.sessions[key].expires <= s.sessions[key].lastSeen + SLIDING;
      }
    }
    forall key | Live(n, key)
      ensures n.sessions[key].expires <= n.sessions[key].lastSeen + SLIDING
    {
      assert Live(s, key);
    }
  }

  lemma PassiveDrop(s: State, step: Step)
    requires PastReviving(s) && Passive(s, step) && !step.Land? && !step.Tick? && !step.Look?
    ensures PastReviving(Take(s, step))
  {
    var n := Take(s, step);
    forall i | 0 <= i < |n.pending|
      ensures !Revivable(n, n.pending[i])
    {
      assert !Revivable(s, s.pending[i]);
    }
  }

  lemma PassiveStep(s: State, step: Step)
    requires PastReviving(s) && Passive(s, step)
    ensures PastReviving(Take(s, step))
  {
    if step.Land? {
      PassiveLand(s, step);
    } else if step.Tick? || step.Look? {
      PassiveTick(s, step);
    } else {
      PassiveDrop(s, step);
    }
  }

  lemma SameOncePruned(s: State, t: State)
    requires SameButDead(s, t)
    ensures Pruned(s) == Pruned(t)
  {
  }

  /** A step that writes a live row prunes both documents, and they are the same from then on. */
  lemma WritesLevel(s: State, t: State, step: Step)
    requires SameButDead(s, t) && PastReviving(s) && PastReviving(t) && !Passive(s, step)
    ensures Take(s, step) == Take(t, step)
  {
    SameOncePruned(s, t);
    match step {
      case Create(key, handle, device) =>
        var row := Session(handle, device, s.now, s.now, s.now + ABSOLUTE);
        PruneOfUpdate(s.sessions, key, row, s.now);
        PruneOfUpdate(t.sessions, key, row, t.now);
      case Use(key) => WritesLevelStamp(s, t, key, s.now);
      case Land(i) => WritesLevelLand(s, t, i);
      case Revoke(key) =>
        PruneOfRemoval(s.sessions, key, s.now);
        PruneOfRemoval(t.sessions, key, t.now);
      case _ =>
    }
  }

  lemma PruneOfUpdate(sessions: map<Digest, Session>, key: Digest, row: Session, now: real)
    ensures Prune(sessions[key := row], now)
      == if Alive(row, now) then Prune(sessions, now)[key := row] else Prune(sessions, now) - {key}
  {
  }

  lemma PruneOfRemoval(sessions: map<Digest, Session>, key: Digest, now: real)
    ensures Prune(sessions - {key}, now) == Prune(sessions, now) - {key}
  {
  }

  lemma WritesLevelStamp(s: State, t: State, key: Digest, at: real)
    requires SameButDead(s, t) && Live(s, key)
    ensures Stamp(s, key, at) == Stamp(t, key, at)
  {
    SameOncePruned(s, t);
    var row := s.sessions[key].(lastSeen := at);
    PruneOfUpdate(s.sessions, key, row, s.now);
    PruneOfUpdate(t.sessions, key, row, t.now);
  }

  lemma WritesLevelLand(s: State, t: State, i: nat)
    requires SameButDead(s, t) && i < |s.pending| && Live(s, s.pending[i].key)
    ensures Take(s, Land(i)) == Take(t, Land(i))
  {
    var left := s.pending[..i] + s.pending[i + 1..];
    WritesLevelStamp(s.(pending := left), t.(pending := left), s.pending[i].key, s.pending[i].at);
  }

  lemma {:induction false} SelfAgrees(s: State, steps: seq<Step>)
    ensures LandsAgree(s, s, steps)
    decreases |steps|
  {
    if steps != [] {
      SelfAgrees(Take(s, steps[0]), steps[1..]);
    }
  }

  lemma {:induction false} PastRevivingAgrees(s: State, t: State, steps: seq<Step>)
    requires SameButDead(s, t) && PastReviving(s) && PastReviving(t)
    ensures LandsAgree(s, t, steps)
    decreases |steps|
  {
    if steps != [] {
      var step := steps[0];
      NothingRevives(s, step);
      NothingRevives(t, step);
      if Passive(s, step) {
        SamePassive(s, t, step);
        PassiveStep(s, step);
        PassiveStep(t, step);
        SameButDeadNext(s, t, step);
        PastRevivingAgrees(Take(s, step), Take(t, step), steps[1..]);
      } else {
        WritesLevel(s, t, step);
        SelfAgrees(Take(s, step), steps[1..]);
      }
    }
  }

  lemma SamePassive(s: State, t: State, step: Step)
    requires SameButDead(s, t)
    ensures Passive(s, step) == Passive(t, step)
  {
    if step.Use? {
      SameAnswer(s, t, step.key);
    }
  }

  lemma AgreeFirst(s: State, t: State, step: Step, rest: seq<Step>)
    ensures LandsAgree(s, t, [step] + rest)
      <==> Revives(s, step) == Revives(t, step) && LandsAgree(Take(s, step), Take(t, step), rest)
  {
    assert ([step] + rest)[1..] == rest;
  }

  /** The account is enabled, time passes until `looked`, and the session is looked at. */
  function AfterLook(s: State, key: Digest, looked: real): State
    requires key in s.sessions
  {
    Take(Take(Take(s, SetUser(s.sessions[key].handle, User("member", false))), Tick(looked - s.now)), Look(key))
  }

  lemma DiesInFlight(s: State, key: Digest, looked: real)
    requires Live(s, key) && s.sessions[key].expires > s.sessions[key].lastSeen + SLIDING
    requires s.now <= looked && GRANULARITY <= looked - s.sessions[key].lastSeen < SLIDING
    ensures var n := Take(AfterLook(s, key, looked), Tick(s.sessions[key].lastSeen + SLIDING - looked));
      && n.sessions == s.sessions && n.pending == s.pending + [Slide(key, looked)]
      && n.now == s.sessions[key].lastSeen + SLIDING && Revivable(n, Slide(key, looked))
  {
  }

  lemma RevokeOfDead(s: State, t: State, dead: Digest, key: Digest)
    requires dead in s.sessions && dead !in t.sessions && !Live(s, key)
    ensures key !in Take(s, Revoke(dead)).sessions && Take(t, Revoke(dead)) == t
  {
  }

  lemma EndDisagrees(o: State, q: State, dead: Digest, i: nat)
    requires dead in o.sessions && dead !in q.sessions && o.pending == q.pending && i < |q.pending|
    requires Revivable(q, q.pending[i]) && !Live(o, q.pending[i].key)
    ensures !LandsAgree(o, q, [Revoke(dead)] + ([Land(i)] + []))
  {
    RevokeOfDead(o, q, dead, q.pending[i].key);
    LandRevivesIff(Take(q, Revoke(dead)), i);
    LandRevivesIff(Take(o, Revoke(dead)), i);
    AgreeFirst(Take(o, Revoke(dead)), Take(q, Revoke(dead)), Land(i), []);
    AgreeFirst(o, q, Revoke(dead), [Land(i)] + []);
  }

  lemma AfterLookDisagrees(s: State, t: State, key: Digest, looked: real, rest: seq<Step>)
    requires key in s.sessions && key in t.sessions && s.now == t.now && s.sessions[key] == t.sessions[key]
    requires !LandsAgree(AfterLook(s, key, looked), AfterLook(t, key, looked), rest)
    ensures var enable := SetUser(s.sessions[key].handle, User("member", false));
      !LandsAgree(s, t, [enable] + ([Tick(looked - s.now)] + ([Look(key)] + rest)))
  {
    var enable, wait := SetUser(s.sessions[key].handle, User("member", false)), Tick(looked - s.now);
    AgreeFirst(Take(Take(s, enable), wait), Take(Take(t, enable), wait), Look(key), rest);
    AgreeFirst(Take(s, enable), Take(t, enable), wait, [Look(key)] + rest);
    AgreeFirst(s, t, enable, [wait] + ([Look(key)] + rest));
  }

  /** Let a live session die idle with a slide in flight, and then revoke a dead one: that prunes only
      the document in which the dead row still is. */
  lemma LateDeathDisagrees(s: State, t: State, dead: Digest, key: Digest) returns (steps: seq<Step>)
    requires t == Pruned(s) && dead in s.sessions && !Live(s, dead) && Live(s, key)
    requires s.sessions[key].expires > s.sessions[key].lastSeen + SLIDING
    ensures !LandsAgree(s, t, steps)
  {
    var row := s.sessions[key];
    var looked := if s.now >= row.lastSeen + GRANULARITY then s.now else row.lastSeen + GRANULARITY;
    var rest := Tick(row.lastSeen + SLIDING - looked);
    var n, m := AfterLook(s, key, looked), AfterLook(t, key, looked);
    DiesInFlight(s, key, looked);
    DiesInFlight(t, key, looked);
    EndDisagrees(Take(n, rest), Take(m, rest), dead, |s.pending|);
    var end := [Revoke(dead)] + ([Land(|s.pending|)] + []);
    AgreeFirst(n, m, rest, end);
    AfterLookDisagrees(s, t, key, looked, [rest] + end);
    steps := [SetUser(row.handle, User("member", false))] + ([Tick(looked - s.now)] + ([Look(key)] + ([rest] + end)));
  }

  /** No sequence of steps tells the two apart. */
  ghost predicate Indistinguishable(s: State, t: State) {
    forall steps :: Answers(s, steps) == Answers(t, steps)
  }

  predicate NothingDead(s: State) {
    forall key :: key in s.sessions ==> Live(s, key)
  }

  lemma PruneInvisibleIf(s: State)
    requires NothingDead(s) || PastReviving(s)
    ensures Indistinguishable(Pruned(s), s)
  {
    PrunedIsSame(s);
    forall steps: seq<Step>
      ensures Answers(Pruned(s), steps) == Answers(s, steps)
    {
      if NothingDead(s) {
        assert Pruned(s) == s;
      } else {
        PrunedPastReviving(s);
        PastRevivingAgrees(Pruned(s), s, steps);
        SameButDeadRun(Pruned(s), s, steps);
      }
    }
  }

  lemma PrunedPastReviving(s: State)
    requires PastReviving(s)
    ensures PastReviving(Pruned(s))
  {
    OnlyLiveRowsIrrevivable(s, Pruned(s));
  }

  lemma SymmetricLands(s: State, t: State, steps: seq<Step>)
    requires !LandsAgree(s, t, steps) && SameButDead(s, t)
    ensures !Indistinguishable(t, s)
  {
    var probe := DisagreementIsSeen(s, t, steps);
  }

  /** Pruning changes no present or future answer, over every run, exactly when the document holds no
      dead row, or no slide in flight revives one and every live session reaches its cap before it can
      die idle. */
  lemma PruneInvisibleIff(s: State)
    ensures Indistinguishable(Pruned(s), s) <==> NothingDead(s) || PastReviving(s)
  {
    PrunedIsSame(s);
    if NothingDead(s) || PastReviving(s) {
      PruneInvisibleIf(s);
    } else if i :| 0 <= i < |s.pending| && Revivable(s, s.pending[i]) {
      LandRevivesIff(s, i);
      LandRevivesIff(Pruned(s), i);
      AgreeFirst(s, Pruned(s), Land(i), []);
      SymmetricLands(s, Pruned(s), [Land(i)] + []);
    } else {
      var dead :| dead in s.sessions && !Live(s, dead);
      var key :| Live(s, key) && s.sessions[key].expires > s.sessions[key].lastSeen + SLIDING;
      var steps := LateDeathDisagrees(s, Pruned(s), dead, key);
      SymmetricLands(s, Pruned(s), steps);
    }
  }

  /** No slide of the run lands on a session that died while it was in flight. */
  predicate NeverRevives(s: State, steps: seq<Step>)
    decreases |steps|
  {
    steps != [] ==> !Revives(s, steps[0]) && NeverRevives(Take(s, steps[0]), steps[1..])
  }

  lemma {:induction false} NeverRevivesAgrees(s: State, t: State, steps: seq<Step>)
    requires NeverRevives(s, steps) && NeverRevives(t, steps)
    ensures LandsAgree(s, t, steps)
    decreases |steps|
  {
    if steps != [] {
      NeverRevivesAgrees(Take(s, steps[0]), Take(t, steps[0]), steps[1..]);
    }
  }

  /** In particular, over every run in which no slide lands on a dead session pruning is invisible. */
  lemma PruneInvisible(s: State, steps: seq<Step>)
    requires NeverRevives(s, steps) && NeverRevives(Pruned(s), steps)
    ensures Answers(Pruned(s), steps) == Answers(s, steps)
  {
    PrunedIsSame(s);
    NeverRevivesAgrees(Pruned(s), s, steps);
    SameButDeadRun(Pruned(s), s, steps);
  }

  /** Sign in, come back after thirteen and a half days with a slow write, and let a day pass. */
  function SlowSlide(key: Digest, handle: string, device: Option<string>): seq<Step> {
    [Create(key, handle, device), Tick(13.5 * DAY), Look(key), Tick(DAY)]
  }

  lemma SlowSlideRuns(key: Digest, handle: string, device: Option<string>, role: string)
    ensures var n := Run(Opened(handle, role), SlowSlide(key, handle, device));
      && n.now == 14.5 * DAY && n.pending == [Slide(key, 13.5 * DAY)] && n.users == map[handle := User(role, false)]
      && n.sessions == map[key := Session(handle, device, 0.0, 0.0, ABSOLUTE)]
  {
    var s := Opened(handle, role);
    var created := Take(s, Create(key, handle, device));
    assert created.sessions == map[key := Session(handle, device, 0.0, 0.0, ABSOLUTE)];
    var later := Take(created, Tick(13.5 * DAY));
    var looked := Take(later, Look(key));
    assert looked.pending == [Slide(key, 13.5 * DAY)];
    RunOne(s, Create(key, handle, device), [Tick(13.5 * DAY), Look(key), Tick(DAY)]);
    RunOne(created, Tick(13.5 * DAY), [Look(key), Tick(DAY)]);
    RunOne(later, Look(key), [Tick(DAY)]);
    RunOne(looked, Tick(DAY), []);
  }

  /** A run reaches a state in which pruning first changes the answer: with it the session stays
      dead, without it the slide in flight revives it. */
  lemma PruneVisibleInFlight(key: Digest, handle: string, device: Option<string>, role: string)
    ensures var n := Run(Opened(handle, role), SlowSlide(key, handle, device));
      && Answers(Pruned(n), [Land(0), Look(key)]) == [None]
      && Answers(n, [Land(0), Look(key)]) == [Some(Who(handle, role, device))]
  {
    SlowSlideRuns(key, handle, device, role);
    var n := Run(Opened(handle, role), SlowSlide(key, handle, device));
    LandThenLook(n, key);
    LandThenLook(Pruned(n), key);
    assert key !in Pruned(n).sessions;
  }

  lemma LandThenLook(s: State, key: Digest)
    ensures Answers(s, [Land(0), Look(key)]) == [Answer(Take(s, Land(0)), key)]
  {
    AnswersFirst(s, Land(0), [Look(key)]);
    AnswersFirst(Take(s, Land(0)), Look(key), []);
    assert [Land(0)] + [Look(key)] == [Land(0), Look(key)] && [Look(key)] + [] == [Look(key)];
  }
}
