/** Browser sessions over whole runs with a monotone clock: creation, resolution with its sliding
    window, revocation, enrolment and pruning; the absolute cap, and revocation for good. */
module Sessions {
  import opened Options

  type Digest = string

  const DAY := 86400.0
  const SLIDING := 14.0 * DAY
  const ABSOLUTE := 30.0 * DAY
  const GRANULARITY := DAY

  datatype Session = Session(handle: string, device: Option<string>, created: real, lastSeen: real, expires: real)
  datatype User = User(role: string, disabled: bool)
  datatype Who = Who(handle: string, role: string, device: Option<string>)

  /** A resolve that has answered but whose `_slide` has not been written yet. */
  datatype Slide = Slide(key: Digest, at: real)

  datatype State = State(now: real, users: map<string, User>, sessions: map<Digest, Session>, pending: seq<Slide>)

  datatype Step =
    | Tick(dt: real)
    | Create(key: Digest, handle: string, device: Option<string>)
    | Use(key: Digest)       // resolve_session with its slide in one go
    | Look(key: Digest)      // resolve_session up to its answer; the slide stays in flight
    | Land(index: nat)       // a slide in flight is written
    | Revoke(key: Digest)
    | RevokeFor(handle: string)
    | Enrol(handle: string)
    | SetUser(handle: string, user: User)

  /** Neither past the absolute cap nor idle past the sliding window. */
  predicate Alive(row: Session, now: real) {
    now < row.expires && now - row.lastSeen < SLIDING
  }

  /** `_prune_sessions`. */
  function Prune(sessions: map<Digest, Session>, now: real): map<Digest, Session> {
    map key | key in sessions && Alive(sessions[key], now) :: sessions[key]
  }

  predicate Live(s: State, key: Digest) {
    key in s.sessions && Alive(s.sessions[key], s.now)
  }

  /** What `resolve_session` answers. */
  function Answer(s: State, key: Digest): Option<Who> {
    if !Live(s, key) then None
    else
      var row := s.sessions[key];
      if row.handle !in s.users || s.users[row.handle].disabled then None
      else Some(Who(row.handle, s.users[row.handle].role, row.device))
  }

  /** The answer comes with a slide when the row was last written long enough ago. */
  predicate WantsSlide(s: State, key: Digest) {
    Answer(s, key).Some? && s.now - s.sessions[key].lastSeen >= GRANULARITY
  }

  /** `_slide`: the row is stamped with the resolve's own time, if it is still there. */
  function Stamp(s: State, key: Digest, at: real): State {
    if key !in s.sessions then s
    else s.(sessions := Prune(s.sessions[key := s.sessions[key].(lastSeen := at)], s.now))
  }

  function DropHandle(sessions: map<Digest, Session>, handle: string): map<Digest, Session> {
    map key | key in sessions && sessions[key].handle != handle :: sessions[key]
  }

  function Take(s: State, step: Step): State {
    match step
    case Tick(dt) => s.(now := s.now + if dt >= 0.0 then dt else 0.0)
    case Create(key, handle, device) =>
      if handle !in s.users then s
      else s.(sessions := Prune(s.sessions[key := Session(handle, device, s.now, s.now, s.now + ABSOLUTE)], s.now))
    case Use(key) => if WantsSlide(s, key) then Stamp(s, key, s.now) else s
    case Look(key) => if WantsSlide(s, key) then s.(pending := s.pending + [Slide(key, s.now)]) else s
    case Land(index) =>
      if index >= |s.pending| then s
      else
        Stamp(s.(pending := s.pending[..index] + s.pending[index + 1..]), s.pending[index].key, s.pending[index].at)
    case Revoke(key) =>
      if key !in s.sessions then s else s.(sessions := Prune(s.sessions - {key}, s.now))
    case RevokeFor(handle) => s.(sessions := DropHandle(s.sessions, handle))
    case Enrol(handle) =>
      if handle !in s.users then s
      else s.(users := s.users[handle := s.users[handle].(disabled := false)],
              sessions := DropHandle(s.sessions, handle))
    case SetUser(handle, user) => s.(users := s.users[handle := user])
  }

  function Run(s: State, steps: seq<Step>): State
    decreases |steps|
  {
    if steps == [] then s else Run(Take(s, steps[0]), steps[1..])
  }

  /** What the resolves of a run answer, in order. */
  function Answers(s: State, steps: seq<Step>): seq<Option<Who>>
    decreases |steps|
  {
    if steps == [] then []
    else
      (if steps[0].Use? || steps[0].Look? then [Answer(s, steps[0].key)] else [])
      + Answers(Take(s, steps[0]), steps[1..])
  }

  /** A store with one enabled account and nobody signed in. */
  function Opened(handle: string, role: string): State {
    State(0.0, map[handle := User(role, false)], map[], [])
  }

  lemma RunOne(s: State, step: Step, rest: seq<Step>)
    ensures Run(s, [step] + rest) == Run(Take(s, step), rest)
  {
    assert ([step] + rest)[1..] == rest;
  }

  // ------------------------------------------------------------ the cap, and revocation

  /** Every row carries the cap it was created with. */
  predicate Capped(s: State) {
    forall key :: key in s.sessions ==> s.sessions[key].expires == s.sessions[key].created + ABSOLUTE
  }

  lemma CappedStep(s: State, step: Step)
    requires Capped(s)
    ensures Capped(Take(s, step))
  {
  }

  /** No session outlives its creation by more than ABSOLUTE, however busy and whatever is in flight. */
  lemma {:induction false} NeverPastTheCap(s: State, steps: seq<Step>, key: Digest)
    requires Capped(s)
    ensures var n := Run(s, steps);
            Capped(n) && (Answer(n, key).Some? ==> n.now < n.sessions[key].created + ABSOLUTE)
    decreases |steps|
  {
    if steps != [] {
      CappedStep(s, steps[0]);
      NeverPastTheCap(Take(s, steps[0]), steps[1..], key);
    }
  }

  /** The session's secret is minted once: no later session gets the same digest. */
  predicate NeverRecreated(steps: seq<Step>, key: Digest) {
    forall i :: 0 <= i < |steps| && steps[i].Create? ==> steps[i].key != key
  }

  lemma GoneStep(s: State, step: Step, key: Digest)
    requires key !in s.sessions && (step.Create? ==> step.key != key)
    ensures key !in Take(s, step).sessions
  {
  }

  /** A row that is gone stays gone, even against slides in flight for it. */
  lemma {:induction false} GoneForGood(s: State, steps: seq<Step>, key: Digest)
    requires key !in s.sessions && NeverRecreated(steps, key)
    ensures key !in Run(s, steps).sessions && Answer(Run(s, steps), key) == None
    decreases |steps|
  {
    if steps != [] {
      GoneStep(s, steps[0], key);
      assert NeverRecreated(steps[1..], key);
      GoneForGood(Take(s, steps[0]), steps[1..], key);
    }
  }

  /** A revoked session never resolves again; nor does any session of a handle that was signed out
      everywhere, or that has just enrolled anew. */
  lemma RevokedNeverResolves(s: State, step: Step, steps: seq<Step>, key: Digest)
    requires key in s.sessions && NeverRecreated(steps, key)
    requires match step
             case Revoke(k) => k == key
             case RevokeFor(handle) => s.sessions[key].handle == handle
             case Enrol(handle) => s.sessions[key].handle == handle && handle in s.users
             case _ => false
    ensures Answer(Run(Take(s, step), steps), key) == None
  {
    GoneForGood(Take(s, step), steps, key);
  }
}
