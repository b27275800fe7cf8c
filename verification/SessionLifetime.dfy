/** How long a session in use stays live: the gaps between uses that keep it until its cap, given how
    late its slides may land. */
module SessionLifetime {
  import opened Options
  import opened Sessions

  /** The step neither ends the session `key` of `handle` nor disables its account. */
  predicate LeavesAlone(step: Step, key: Digest, handle: string) {
    match step
    case Create(k, _, _) => k != key
    case Revoke(k) => k != key
    case RevokeFor(h) => h != handle
    case Enrol(h) => h != handle
    case SetUser(h, user) => h == handle ==> !user.disabled
    case _ => true
  }

  predicate NoSlideFor(s: State, key: Digest) {
    forall i :: 0 <= i < |s.pending| ==> s.pending[i].key != key
  }

  predicate UsesIt(step: Step, key: Digest) {
    step == Use(key) || step == Look(key)
  }

  /** When the session was last used, once the step is taken. */
  function LastUse(s: State, step: Step, key: Digest, lastUse: real): real {
    if UsesIt(step, key) then s.now else lastUse
  }

  /** No slide of the session has been in flight for longer than `delay`. */
  predicate SlidesPrompt(s: State, key: Digest, delay: real) {
    forall i :: 0 <= i < |s.pending| && s.pending[i].key == key ==> s.now - s.pending[i].at <= delay
  }

  /** No two uses, and no use and the end of the run, are more than `gap` apart, and every slide of
      the session lands within `delay`. */
  predicate UsedOften(s: State, key: Digest, handle: string, lastUse: real, gap: real, delay: real, steps: seq<Step>)
    decreases |steps|
  {
    && s.now - lastUse <= gap && SlidesPrompt(s, key, delay)
    && (steps != [] ==>
         && LeavesAlone(steps[0], key, handle)
         && UsedOften(Take(s, steps[0]), key, handle, LastUse(s, steps[0], key, lastUse), gap, delay, steps[1..]))
  }

  /** How far a stamp may lie behind the last use: what a use leaves unstamped, or what a slide that
      lands late takes back. */
  predicate Close(behind: real, delay: real) {
    if delay < GRANULARITY then behind < GRANULARITY else behind <= delay
  }

  /** The gap and the delay together stay inside the sliding window. */
  predicate Fits(gap: real, delay: real) {
    if delay < GRANULARITY then gap + delay <= SLIDING - GRANULARITY else gap + 2.0 * delay < SLIDING
  }

  /** A slide in flight will stamp the row while it is still alive. */
  predicate Covered(s: State, key: Digest, row: Session, delay: real) {
    exists i :: 0 <= i < |s.pending| && s.pending[i].key == key && s.pending[i].at - row.lastSeen < SLIDING - delay
  }

  /** The row of a session in use: there for as long as its cap allows, and stamped close to its
      last use or about to be. */
  predicate InUse(s: State, key: Digest, handle: string, cap: real, lastUse: real, delay: real) {
    && lastUse <= s.now
    && handle in s.users && !s.users[handle].disabled
    && (s.now < cap ==> key in s.sessions)
    && (key in s.sessions ==>
         && s.sessions[key].handle == handle && s.sessions[key].expires == cap
         && (s.now < cap ==>
              Close(lastUse - s.sessions[key].lastSeen, delay) || Covered(s, key, s.sessions[key], delay)))
  }

  lemma InUseIsLive(s: State, key: Digest, handle: string, cap: real, lastUse: real, gap: real, delay: real)
    requires InUse(s, key, handle, cap, lastUse, delay) && Fits(gap, delay) && delay >= 0.0
    requires s.now - lastUse <= gap && SlidesPrompt(s, key, delay)
    ensures Answer(s, key).Some? <==> s.now < cap
    ensures s.now < cap ==> Live(s, key)
  {
  }

  lemma InUseUse(s: State, key: Digest, handle: string, cap: real, lastUse: real, gap: real, delay: real, step: Step)
    requires InUse(s, key, handle, cap, lastUse, delay) && Fits(gap, delay) && delay >= 0.0
    requires s.now - lastUse <= gap && SlidesPrompt(s, key, delay) && UsesIt(step, key)
    ensures InUse(Take(s, step), key, handle, cap, s.now, delay)
  {
    InUseIsLive(s, key, handle, cap, lastUse, gap, delay);
    var n := Take(s, step);
    if step.Look? && WantsSlide(s, key) {
      assert n.pending[|s.pending|] == Slide(key, s.now);
      if !Close(lastUse - s.sessions[key].lastSeen, delay) && s.now < cap {
        StillCovered(s, n, key, s.sessions[key], delay);
      }
    }
  }

  lemma StillCovered(s: State, n: State, key: Digest, row: Session, delay: real)
    requires Covered(s, key, row, delay) && s.pending <= n.pending
    ensures Covered(n, key, row, delay)
  {
    var i :| 0 <= i < |s.pending| && s.pending[i].key == key && s.pending[i].at - row.lastSeen < SLIDING - delay;
    assert n.pending[i] == s.pending[i];
  }

  lemma CoveredWithout(s: State, n: State, key: Digest, row: Session, delay: real, j: nat)
    requires Covered(s, key, row, delay) && j < |s.pending| && s.pending[j].key != key
    requires n.pending == s.pending[..j] + s.pending[j + 1..]
    ensures Covered(n, key, row, delay)
  {
    var i :| 0 <= i < |s.pending| && s.pending[i].key == key && s.pending[i].at - row.lastSeen < SLIDING - delay;
    assert n.pending[if i < j then i else i - 1] == s.pending[i];
  }

  lemma InUseLand(s: State, key: Digest, handle: string, cap: real, lastUse: real, gap: real, delay: real, step: Step)
    requires InUse(s, key, handle, cap, lastUse, delay) && Fits(gap, delay) && delay >= 0.0
    requires s.now - lastUse <= gap && SlidesPrompt(s, key, delay) && step.Land?
    ensures InUse(Take(s, step), key, handle, cap, lastUse, delay)
  {
    InUseIsLive(s, key, handle, cap, lastUse, gap, delay);
    if step.index < |s.pending| && s.pending[step.index].key != key && s.now < cap {
      if Covered(s, key, s.sessions[key], delay) {
        CoveredWithout(s, Take(s, step), key, s.sessions[key], delay, step.index);
      }
    }
  }

  lemma InUseOther(s: State, key: Digest, handle: string, cap: real, lastUse: real, gap: real, delay: real, step: Step)
    requires InUse(s, key, handle, cap, lastUse, delay) && Fits(gap, delay) && delay >= 0.0
    requires s.now - lastUse <= gap && SlidesPrompt(s, key, delay)
    requires LeavesAlone(step, key, handle) && !step.Land? && !UsesIt(step, key)
    ensures InUse(Take(s, step), key, handle, cap, lastUse, delay)
  {
    InUseIsLive(s, key, handle, cap, lastUse, gap, delay);
    if key in s.sessions && Covered(s, key, s.sessions[key], delay) {
      StillCovered(s, Take(s, step), key, s.sessions[key], delay);
    }
  }

  /** A session used at gaps that fit, whose slides land within the delay, is live at every moment
      before its absolute cap and at no moment from the cap on, whatever else happens in between
      and however its uses overlap. */
  lemma {:induction false} LiveUntilTheCap(s: State, key: Digest, handle: string, cap: real, lastUse: real, gap: real,
                                           delay: real, steps: seq<Step>)
    requires InUse(s, key, handle, cap, lastUse, delay) && Fits(gap, delay) && delay >= 0.0
    requires UsedOften(s, key, handle, lastUse, gap, delay, steps)
    ensures Answer(s, key).Some? <==> s.now < cap
    ensures Answer(Run(s, steps), key).Some? <==> Run(s, steps).now < cap
    decreases |steps|
  {
    InUseIsLive(s, key, handle, cap, lastUse, gap, delay);
    if steps != [] {
      if UsesIt(steps[0], key) {
        InUseUse(s, key, handle, cap, lastUse, gap, delay, steps[0]);
      } else if steps[0].Land? {
        InUseLand(s, key, handle, cap, lastUse, gap, delay, steps[0]);
      } else {
        InUseOther(s, key, handle, cap, lastUse, gap, delay, steps[0]);
      }
      LiveUntilTheCap(Take(s, steps[0]), key, handle, cap, LastUse(s, steps[0], key, lastUse), gap, delay, steps[1..]);
    }
  }

  /** A new session is in use from the moment it is made; its digest is new, so nothing is in flight
      for it. */
  lemma CreateIsInUse(s: State, key: Digest, handle: string, device: Option<string>, delay: real)
    requires handle in s.users && !s.users[handle].disabled && NoSlideFor(s, key) && delay >= 0.0
    ensures InUse(Take(s, Create(key, handle, device)), key, handle, s.now + ABSOLUTE, s.now, delay)
  {
  }

  /** A run of sign-in and steps keeps the session alive until its cap. */
  ghost predicate AliveAfter(s: State, key: Digest, handle: string, device: Option<string>, gap: real, delay: real,
                             steps: seq<Step>) {
    var created := Take(s, Create(key, handle, device));
    handle in s.users && !s.users[handle].disabled && NoSlideFor(s, key)
    && UsedOften(created, key, handle, s.now, gap, delay, steps) ==>
      (Answer(Run(created, steps), key).Some? <==> Run(created, steps).now < s.now + ABSOLUTE)
  }

  /** Using a session at such gaps, with slides that land within the delay, always keeps it alive
      until its cap. */
  ghost predicate KeepsAlive(gap: real, delay: real) {
    forall s, key, handle, device, steps :: AliveAfter(s, key, handle, device, gap, delay, steps)
  }

  lemma UsedFirst(s: State, key: Digest, handle: string, lastUse: real, gap: real, delay: real, step: Step,
                  rest: seq<Step>)
    requires s.now - lastUse <= gap && SlidesPrompt(s, key, delay) && LeavesAlone(step, key, handle)
    requires UsedOften(Take(s, step), key, handle, LastUse(s, step, key, lastUse), gap, delay, rest)
    ensures UsedOften(s, key, handle, lastUse, gap, delay, [step] + rest)
  {
    assert ([step] + rest)[1..] == rest;
  }

  function SignedIn(key: Digest, handle: string): State {
    Take(Opened(handle, "member"), Create(key, handle, None))
  }

  /** Use the session a little after signing in, come back after the gap, and look again while the
      slide of that visit is still in flight. */
  function LateVisit(key: Digest, early: real, gap: real, rest: real): seq<Step> {
    [Tick(early), Use(key), Tick(gap), Look(key), Tick(rest)]
  }

  lemma ComeBack(s: State, key: Digest, handle: string, gap: real, delay: real, rest: real)
    requires s.users == map[handle := User("member", false)]
    requires s.sessions == map[key := Session(handle, None, 0.0, 0.0, ABSOLUTE)]
    requires s.pending == [] && 0.0 <= s.now && 0.0 <= rest <= delay <= gap && s.now + gap + rest == SLIDING
    ensures UsedOften(s, key, handle, s.now, gap, delay, [Tick(gap), Look(key), Tick(rest)])
    ensures var e := Run(s, [Tick(gap), Look(key), Tick(rest)]); e.now == SLIDING && Answer(e, key) == None
  {
    var s3 := Take(s, Tick(gap));
    var s4 := Take(s3, Look(key));
    assert s4.sessions == s.sessions && s4.pending <= [Slide(key, s3.now)];
    UsedFirst(s4, key, handle, s4.now, gap, delay, Tick(rest), []);
    UsedFirst(s3, key, handle, s.now, gap, delay, Look(key), [Tick(rest)]);
    UsedFirst(s, key, handle, s.now, gap, delay, Tick(gap), [Look(key), Tick(rest)]);
    RunOne(s4, Tick(rest), []);
    RunOne(s3, Look(key), [Tick(rest)]);
    RunOne(s, Tick(gap), [Look(key), Tick(rest)]);
  }

  lemma LateVisitDies(key: Digest, handle: string, early: real, gap: real, delay: real)
    requires 0.0 <= early < GRANULARITY && early <= gap && 0.0 <= delay <= gap
    requires early + gap <= SLIDING <= early + gap + delay
    ensures var created := SignedIn(key, handle);
      var steps := LateVisit(key, early, gap, SLIDING - early - gap);
      && UsedOften(created, key, handle, 0.0, gap, delay, steps)
      && Run(created, steps).now == SLIDING && Answer(Run(created, steps), key) == None
  {
    var rest := SLIDING - early - gap;
    var s0 := SignedIn(key, handle);
    assert s0.sessions == map[key := Session(handle, None, 0.0, 0.0, ABSOLUTE)];
    var s1 := Take(s0, Tick(early));
    assert Take(s1, Use(key)) == s1;
    var back := [Tick(gap), Look(key), Tick(rest)];
    ComeBack(s1, key, handle, gap, delay, rest);
    UsedFirst(s1, key, handle, 0.0, gap, delay, Use(key), back);
    UsedFirst(s0, key, handle, 0.0, gap, delay, Tick(early), [Use(key)] + back);
    RunOne(s1, Use(key), back);
    RunOne(s0, Tick(early), [Use(key)] + back);
    assert [Tick(early)] + ([Use(key)] + back) == LateVisit(key, early, gap, rest);
  }

  lemma {:induction false} WiderGap(s: State, key: Digest, handle: string, lastUse: real, gap: real, delay: real,
                                    wider: real, longer: real, steps: seq<Step>)
    requires UsedOften(s, key, handle, lastUse, gap, delay, steps) && gap <= wider && delay <= longer
    ensures UsedOften(s, key, handle, lastUse, wider, longer, steps)
    decreases |steps|
  {
    if steps != [] {
      WiderGap(Take(s, steps[0]), key, handle, LastUse(s, steps[0], key, lastUse), gap, delay, wider, longer,
               steps[1..]);
    }
  }

  lemma DeadVisit(gap: real, delay: real, used: real, held: real, steps: seq<Step>)
    requires used <= gap && held <= delay
    requires var created := SignedIn("k", "ada");
      && UsedOften(created, "k", "ada", 0.0, used, held, steps)
      && Run(created, steps).now < ABSOLUTE && Answer(Run(created, steps), "k") == None
    ensures !KeepsAlive(gap, delay)
  {
    var created := SignedIn("k", "ada");
    WiderGap(created, "k", "ada", 0.0, used, held, gap, delay, steps);
    assert !AliveAfter(Opened("ada", "member"), "k", "ada", None, gap, delay, steps);
  }

  /** When slides land within GRANULARITY, a longer gap loses a session in some run. */
  lemma LongGapDies(gap: real, delay: real)
    requires 0.0 <= delay < GRANULARITY && gap + delay > SLIDING - GRANULARITY
    ensures !KeepsAlive(gap, delay)
  {
    var used := if gap < SLIDING then gap else SLIDING;
    var early := if used + delay >= SLIDING then 0.0 else SLIDING - used - delay;
    LateVisitDies("k", "ada", early, used, delay);
    DeadVisit(gap, delay, used, delay, LateVisit("k", early, used, SLIDING - early - used));
  }

  // ------------------------------------------------------------ slides that land later than that

  /** `n` visits of the same kind, `dt` apart, and then the rest. */
  function Chained(visit: Step, dt: real, n: nat, rest: seq<Step>): seq<Step>
    decreases n
  {
    if n == 0 then rest else [Tick(dt), visit] + Chained(visit, dt, n - 1, rest)
  }

  function Visited(s: State, visit: Step, dt: real): State {
    Take(Take(s, Tick(dt)), visit)
  }

  function AfterChain(s: State, visit: Step, dt: real, n: nat): State
    decreases n
  {
    if n == 0 then s else AfterChain(Visited(s, visit, dt), visit, dt, n - 1)
  }

  lemma Grows(s: State, visit: Step, key: Digest, dt: real)
    requires UsesIt(visit, key) && dt >= 0.0
    ensures var n := Visited(s, visit, dt); s.pending <= n.pending && n.now == s.now + dt
  {
  }

  lemma PromptBefore(s: State, n: State, key: Digest, delay: real)
    requires SlidesPrompt(n, key, delay) && s.pending <= n.pending && s.now <= n.now
    ensures SlidesPrompt(s, key, delay)
  {
    forall i | 0 <= i < |s.pending| && s.pending[i].key == key
      ensures s.now - s.pending[i].at <= delay
    {
      assert n.pending[i] == s.pending[i];
    }
  }

  /** One visit, `dt` after now. */
  lemma VisitThen(s: State, key: Digest, handle: string, lastUse: real, gap: real, delay: real, visit: Step, dt: real,
                  rest: seq<Step>)
    requires UsesIt(visit, key) && dt >= 0.0 && s.now + dt - lastUse <= gap
    requires UsedOften(Visited(s, visit, dt), key, handle, s.now + dt, gap, delay, rest)
    ensures UsedOften(s, key, handle, lastUse, gap, delay, [Tick(dt), visit] + rest)
    ensures Run(s, [Tick(dt), visit] + rest) == Run(Visited(s, visit, dt), rest)
  {
    var ticked := Take(s, Tick(dt));
    Grows(s, visit, key, dt);
    PromptBefore(ticked, Visited(s, visit, dt), key, delay);
    PromptBefore(s, ticked, key, delay);
    UsedFirst(ticked, key, handle, lastUse, gap, delay, visit, rest);
    UsedFirst(s, key, handle, lastUse, gap, delay, Tick(dt), [visit] + rest);
    RunOne(ticked, visit, rest);
    RunOne(s, Tick(dt), [visit] + rest);
    assert [Tick(dt)] + ([visit] + rest) == [Tick(dt), visit] + rest;
  }

  lemma {:induction false} ChainThen(s: State, key: Digest, handle: string, visit: Step, dt: real, n: nat, gap: real,
                                     delay: real, rest: seq<Step>)
    requires UsesIt(visit, key) && 0.0 <= dt <= gap
    requires var e := AfterChain(s, visit, dt, n); UsedOften(e, key, handle, e.now, gap, delay, rest)
    ensures UsedOften(s, key, handle, s.now, gap, delay, Chained(visit, dt, n, rest))
    ensures Run(s, Chained(visit, dt, n, rest)) == Run(AfterChain(s, visit, dt, n), rest)
    decreases n
  {
    if n > 0 {
      Grows(s, visit, key, dt);
      ChainThen(Visited(s, visit, dt), key, handle, visit, dt, n - 1, gap, delay, rest);
      VisitThen(s, key, handle, s.now, gap, delay, visit, dt, Chained(visit, dt, n - 1, rest));
    }
  }

  /** A store in its first days, with one session. */
  predicate Young(s: State, key: Digest, handle: string) {
    && s.users == map[handle := User("member", false)]
    && key in s.sessions && s.sessions == map[key := s.sessions[key]]
    && s.sessions[key].handle == handle && s.sessions[key].expires == ABSOLUTE
    && 0.0 <= s.sessions[key].lastSeen <= s.now < SLIDING
  }

  lemma OneUse(s: State, key: Digest, handle: string, dt: real)
    requires Young(s, key, handle) && dt >= 0.0 && s.now + dt < SLIDING
    ensures var n := Visited(s, Use(key), dt);
      && Young(n, key, handle) && n.now == s.now + dt && n.pending == s.pending
      && (s.sessions[key].lastSeen == 0.0 && n.now < GRANULARITY ==> n == s.(now := n.now))
  {
  }

  lemma Shorter(n: nat, dt: real)
    requires n > 0 && dt >= 0.0
    ensures n as real * dt == dt + (n - 1) as real * dt && (n - 1) as real * dt >= 0.0
  {
  }

  lemma {:induction false} AfterUses(s: State, key: Digest, handle: string, dt: real, n: nat, until: real)
    requires Young(s, key, handle) && dt >= 0.0 && until == s.now + n as real * dt && until < SLIDING
    ensures var e := AfterChain(s, Use(key), dt, n);
      && Young(e, key, handle) && e.now == until && e.pending == s.pending
      && (s.sessions[key].lastSeen == 0.0 && until < GRANULARITY ==> e == s.(now := until))
    decreases n
  {
    if n > 0 {
      Shorter(n, dt);
      OneUse(s, key, handle, dt);
      AfterUses(Visited(s, Use(key), dt), key, handle, dt, n - 1, until);
    } else {
      assert s == s.(now := until);
    }
  }

  /** Looking changes no row; the slides it leaves are as old as the look. */
  lemma {:induction false} AfterLooks(s: State, key: Digest, dt: real, n: nat, until: real, since: real)
    requires dt >= 0.0 && until == s.now + n as real * dt && since <= s.now
    requires forall i :: 0 <= i < |s.pending| ==> s.pending[i].at >= since
    ensures var e := AfterChain(s, Look(key), dt, n);
      && e.now == until && e.sessions == s.sessions
      && forall i :: 0 <= i < |e.pending| ==> e.pending[i].at >= since
    decreases n
  {
    if n > 0 {
      Shorter(n, dt);
      AfterLooks(Visited(s, Look(key), dt), key, dt, n - 1, until, since);
    }
  }

  /** The number of equal pieces, none longer than `gap`, that a stretch is cut into. */
  lemma Pieces(length: real, gap: real) returns (n: nat, dt: real)
    requires length > 0.0 && gap > 0.0
    ensures n > 0 && 0.0 < dt <= gap && n as real * dt == length
  {
    var q := length / gap;
    assert q * gap == length;
    n := q.Floor + 1;
    dt := length / n as real;
    assert n as real > q;
    assert dt * n as real == length;
    if dt > gap {
      Scaled(q, n as real, gap, dt);
    }
  }

  lemma Scaled(q: real, n: real, gap: real, dt: real)
    requires 0.0 < q < n && 0.0 < gap < dt
    ensures q * gap < n * dt
  {
    assert q * gap < n * gap;
    assert n * gap < n * dt;
  }

  /** The last part: the slide of a look `held` ago lands and takes the stamp back to that look, the
      session rests for the gap, and is then looked at while every new slide is still in flight. */
  function Relapse(key: Digest, gap: real, dt: real, n: nat): seq<Step> {
    [Land(0)] + ([Tick(gap), Look(key)] + Chained(Look(key), dt, n, []))
  }

  lemma LandsBack(s: State, key: Digest, handle: string, at: real)
    requires Young(s, key, handle) && s.pending == [Slide(key, at)] && 0.0 <= at <= s.now
    ensures var l := Take(s, Land(0));
      && key in l.sessions && l.sessions[key].lastSeen == at && l.pending == [] && l.now == s.now
  {
  }

  lemma RestDies(l: State, key: Digest, handle: string, at: real, gap: real, held: real, dt: real, n: nat)
    requires key in l.sessions && l.sessions[key].lastSeen == at && l.pending == [] && l.now == at + held
    requires 0.0 < dt <= gap && n as real * dt == held && gap + 2.0 * held == SLIDING
    ensures UsedOften(l, key, handle, l.now, gap, held, [Tick(gap), Look(key)] + Chained(Look(key), dt, n, []))
    ensures var e := Run(l, [Tick(gap), Look(key)] + Chained(Look(key), dt, n, []));
      e.now == at + SLIDING && Answer(e, key) == None
  {
    var v := Visited(l, Look(key), gap);
    AfterLooks(v, key, dt, n, v.now + held, v.now);
    ChainThen(v, key, handle, Look(key), dt, n, gap, held, []);
    VisitThen(l, key, handle, l.now, gap, held, Look(key), gap, Chained(Look(key), dt, n, []));
  }

  lemma RelapseDies(s: State, key: Digest, handle: string, at: real, gap: real, held: real, dt: real, n: nat)
    requires Young(s, key, handle) && s.pending == [Slide(key, at)] && 0.0 <= at && s.now == at + held
    requires 0.0 < dt <= gap && n as real * dt == held && gap + 2.0 * held == SLIDING
    ensures UsedOften(s, key, handle, s.now, gap, held, Relapse(key, gap, dt, n))
    ensures var e := Run(s, Relapse(key, gap, dt, n)); e.now == at + SLIDING && Answer(e, key) == None
  {
    LandsBack(s, key, handle, at);
    RestDies(Take(s, Land(0)), key, handle, at, gap, held, dt, n);
    var rest := [Tick(gap), Look(key)] + Chained(Look(key), dt, n, []);
    UsedFirst(s, key, handle, s.now, gap, held, Land(0), rest);
    RunOne(s, Land(0), rest);
  }

  /** A session used for a day and then looked at: the row is not stamped yet, the slide is in flight. */
  lemma FirstDay(key: Digest, handle: string, dt: real, n: nat)
    requires n > 0 && dt > 0.0 && n as real * dt == GRANULARITY
    ensures var b := Visited(AfterChain(SignedIn(key, handle), Use(key), dt, n - 1), Look(key), dt);
      Young(b, key, handle) && b.now == GRANULARITY && b.pending == [Slide(key, GRANULARITY)]
    ensures AfterChain(SignedIn(key, handle), Use(key), dt, n - 1).now == GRANULARITY - dt
  {
    Shorter(n, dt);
    var c := SignedIn(key, handle);
    assert c.sessions == map[key := Session(handle, None, 0.0, 0.0, ABSOLUTE)];
    AfterUses(c, key, handle, dt, n - 1, GRANULARITY - dt);
  }

  /** Uses go on while the slide of that look is in flight, and then comes the relapse. */
  function UsesThenRelapse(key: Digest, gap: real, dt: real, n: nat): seq<Step> {
    Chained(Use(key), dt, n, Relapse(key, gap, dt, n))
  }

  lemma UsesThenRelapseDies(b: State, key: Digest, handle: string, gap: real, held: real, dt: real, n: nat)
    requires Young(b, key, handle) && b.now == GRANULARITY && b.pending == [Slide(key, GRANULARITY)]
    requires 0.0 < dt <= gap && n as real * dt == held && gap + 2.0 * held == SLIDING
    ensures UsedOften(b, key, handle, b.now, gap, held, UsesThenRelapse(key, gap, dt, n))
    ensures var e := Run(b, UsesThenRelapse(key, gap, dt, n)); e.now < ABSOLUTE && Answer(e, key) == None
  {
    AfterUses(b, key, handle, dt, n, GRANULARITY + held);
    RelapseDies(AfterChain(b, Use(key), dt, n), key, handle, GRANULARITY, gap, held, dt, n);
    ChainThen(b, key, handle, Use(key), dt, n, gap, held, Relapse(key, gap, dt, n));
  }

  /** Sign in, use the session for a day, look at it, use it on while that look's slide is in flight,
      and relapse. */
  lemma SlowWeek(key: Digest, handle: string, gap: real, held: real) returns (steps: seq<Step>)
    requires 0.0 < gap && 0.0 < held && gap + 2.0 * held == SLIDING
    ensures var created := SignedIn(key, handle);
      && UsedOften(created, key, handle, 0.0, gap, held, steps)
      && Run(created, steps).now < ABSOLUTE && Answer(Run(created, steps), key) == None
  {
    var n1, dt1 := Pieces(GRANULARITY, gap);
    var n2, dt2 := Pieces(held, gap);
    FirstDay(key, handle, dt1, n1);
    var c := SignedIn(key, handle);
    var a := AfterChain(c, Use(key), dt1, n1 - 1);
    var later := UsesThenRelapse(key, gap, dt2, n2);
    UsesThenRelapseDies(Visited(a, Look(key), dt1), key, handle, gap, held, dt2, n2);
    VisitThen(a, key, handle, a.now, gap, held, Look(key), dt1, later);
    ChainThen(c, key, handle, Use(key), dt1, n1 - 1, gap, held, [Tick(dt1), Look(key)] + later);
    steps := Chained(Use(key), dt1, n1 - 1, [Tick(dt1), Look(key)] + later);
  }

  /** When slides may land later than GRANULARITY, any gap that does not fit loses a session too. */
  lemma SlowSlidesDie(gap: real, delay: real)
    requires delay >= GRANULARITY && gap > 0.0 && gap + 2.0 * delay >= SLIDING
    ensures !KeepsAlive(gap, delay)
  {
    if gap >= SLIDING {
      LateVisitDies("k", "ada", 0.0, SLIDING, 0.0);
      DeadVisit(gap, delay, SLIDING, 0.0, LateVisit("k", 0.0, SLIDING, 0.0));
    } else {
      var held := (SLIDING - gap) / 2.0;
      var steps := SlowWeek("k", "ada", gap, held);
      DeadVisit(gap, delay, gap, held, steps);
    }
  }

  /** Exactly which gaps between uses keep a session alive until its cap, given how late its slides
      may land. */
  lemma KeepsAliveIff(gap: real, delay: real)
    requires gap > 0.0 && delay >= 0.0
    ensures KeepsAlive(gap, delay) <==> Fits(gap, delay)
  {
    if Fits(gap, delay) {
      forall s: State, key, handle, device, steps
        ensures AliveAfter(s, key, handle, device, gap, delay, steps)
      {
        StaysAlive(s, key, handle, device, gap, delay, steps);
      }
    } else if delay < GRANULARITY {
      LongGapDies(gap, delay);
    } else {
      SlowSlidesDie(gap, delay);
    }
  }

  lemma StaysAlive(s: State, key: Digest, handle: string, device: Option<string>, gap: real, delay: real,
                   steps: seq<Step>)
    requires Fits(gap, delay) && delay >= 0.0
    ensures AliveAfter(s, key, handle, device, gap, delay, steps)
  {
    var created := Take(s, Create(key, handle, device));
    if handle in s.users && !s.users[handle].disabled && NoSlideFor(s, key)
      && UsedOften(created, key, handle, s.now, gap, delay, steps) {
      CreateIsInUse(s, key, handle, device, delay);
      LiveUntilTheCap(created, key, handle, s.now + ABSOLUTE, s.now, gap, delay, steps);
    }
  }

  /** Sign in, look a day later with a slow write, and use the session twelve days after that. */
  function TwoUses(key: Digest, handle: string, device: Option<string>): seq<Step> {
    [Create(key, handle, device), Tick(DAY), Look(key), Tick(12.0 * DAY), Use(key)]
  }

  lemma TwoUsesRun(key: Digest, handle: string, device: Option<string>, role: string)
    ensures var n := Run(Opened(handle, role), TwoUses(key, handle, device));
      && n.now == 13.0 * DAY && n.pending == [Slide(key, DAY)] && n.users == map[handle := User(role, false)]
      && n.sessions == map[key := Session(handle, device, 0.0, 13.0 * DAY, ABSOLUTE)]
  {
    var s0 := Opened(handle, role);
    var s1 := Take(s0, Create(key, handle, device));
    assert s1.sessions == map[key := Session(handle, device, 0.0, 0.0, ABSOLUTE)];
    var s2 := Take(s1, Tick(DAY));
    var s3 := Take(s2, Look(key));
    assert s3.pending == [Slide(key, DAY)];
    var s4 := Take(s3, Tick(12.0 * DAY));
    assert Take(s4, Use(key)).sessions == map[key := Session(handle, device, 0.0, 13.0 * DAY, ABSOLUTE)];
    RunOne(s0, Create(key, handle, device), [Tick(DAY), Look(key), Tick(12.0 * DAY), Use(key)]);
    RunOne(s1, Tick(DAY), [Look(key), Tick(12.0 * DAY), Use(key)]);
    RunOne(s2, Look(key), [Tick(12.0 * DAY), Use(key)]);
    RunOne(s3, Tick(12.0 * DAY), [Use(key)]);
    RunOne(s4, Use(key), []);
  }

  /** A slide that lands late takes back a later stamp: a session that answered three days ago is
      dead, fourteen days before its cap. */
  lemma StaleSlideKills(key: Digest, handle: string, device: Option<string>, role: string)
    ensures var n := Run(Opened(handle, role), TwoUses(key, handle, device));
      && n.now == 13.0 * DAY && Answer(n, key) == Some(Who(handle, role, device))
      && n.sessions[key].expires == n.now + 3.0 * DAY + 14.0 * DAY
      && Answer(Take(n, Tick(3.0 * DAY)), key) == Some(Who(handle, role, device))
      && Answer(Take(Take(n, Land(0)), Tick(3.0 * DAY)), key) == None
  {
    TwoUsesRun(key, handle, device, role);
  }
}
