/** One document of the identity store under every interleaving of threads and processes: the
    re-entrant scope, the file lock, the read-modify-writes and the cached reads outside the scope.

    Every document has its own contents and cache entry and all documents share the lock, so the
    steps on the others are the `Enter`, `Leave` and idle steps of this machine. */
module StoreLock {
  import opened Options

  type Doc = map<string, string>
  type Thread = nat
  type Process = nat

  /** The per-process `_Guard`: who owns the re-entrant lock, how deep, and whether the outermost
      scope holds a file handle. */
  datatype Guard = Guard(owner: Option<Thread>, depth: nat, handle: bool)

  /** What a cached parse is: the stat key it was stored under, and the document. The number of
      writes before a version stands for its stat key, which is never reused. */
  datatype Cached = Cached(key: nat, doc: Doc)

  /** Where a thread is inside an unlocked `_read`. */
  datatype Reading =
    | Idle
    | Statted(key: nat)
    | Fetched(key: nat, doc: Doc)
    | Answered(key: nat, doc: Doc)

  /** Where a thread is inside `_write`: the new contents are in place, the cache is not set yet. */
  datatype Local = Local(process: Process, view: Option<Doc>, placed: Option<Doc>, reading: Reading)

  /** `versions` is every content the file ever had, the last one current; `commits` the updates
      written so far, in order. */
  datatype Store = Store(versions: seq<Doc>, commits: seq<Doc -> Doc>, fileLock: Option<Process>,
                         guards: map<Process, Guard>, locals: map<Thread, Local>, caches: map<Process, Option<Cached>>)

  /** `flock` is false where the platform or filesystem has no file lock and the code degrades;
      `editor` is true when something outside the scope may replace the file as well. */
  datatype Config = Config(flock: bool, editor: bool)

  datatype Step =
    | TakeGuard(t: Thread)            // `with guard.lock` for the outermost scope
    | Enter(t: Thread)                // flock, then depth 0 to 1
    | Nest(t: Thread)                 // an inner scope: only the depth moves
    | Leave(t: Thread)                // depth - 1; the last one unlocks and releases
    | FreshRead(t: Thread)            // `_read(fresh=True)` inside the scope
    | Place(t: Thread, update: Doc -> Doc)   // `os.replace` of the updated document
    | Restat(t: Thread)               // `_write` sets the cache from a stat of its own
    | Stat(t: Thread)                 // an unlocked `_read` begins
    | Fetch(t: Thread)                // cache miss: the bytes are read
    | Hit(t: Thread)                  // cache hit
    | Remember(t: Thread)             // the miss is put in the cache and returned
    | Return(t: Thread)
    | Edit(doc: Doc)                  // an editor outside the scope replaces the file

  function Current(s: Store): Doc
    requires s.versions != []
  {
    s.versions[|s.versions| - 1]
  }

  /** The stat key of the file as it is. */
  function KeyNow(s: Store): nat
    requires s.versions != []
  {
    |s.versions| - 1
  }

  function ThreadOf(step: Step): Option<Thread> {
    if step.Edit? then None else Some(step.t)
  }

  predicate Known(s: Store) {
    && s.versions != []
    && forall t :: t in s.locals ==> s.locals[t].process in s.guards && s.locals[t].process in s.caches
  }

  predicate InScope(s: Store, t: Thread)
    requires Known(s) && t in s.locals
  {
    var g := s.guards[s.locals[t].process];
    g.owner == Some(t) && g.depth > 0
  }

  /** Whether the step can be taken. */
  predicate Enabled(c: Config, s: Store, step: Step) {
    && Known(s)
    && (ThreadOf(step).Some? ==> ThreadOf(step).value in s.locals)
    && match step
       case TakeGuard(t) => s.guards[s.locals[t].process].owner == None && s.locals[t].reading == Idle
       case Enter(t) =>
         var g := s.guards[s.locals[t].process];
         g.owner == Some(t) && g.depth == 0 && (c.flock ==> s.fileLock == None)
       case Nest(t) => InScope(s, t)
       case Leave(t) => InScope(s, t) && s.locals[t].placed == None
       case FreshRead(t) => InScope(s, t) && s.locals[t].placed == None
       case Place(t, update) => InScope(s, t) && s.locals[t].view.Some? && s.locals[t].placed == None
       case Restat(t) => InScope(s, t) && s.locals[t].placed.Some?
       case Stat(t) => s.locals[t].reading == Idle && !InScope(s, t)
       case Fetch(t) => s.locals[t].reading.Statted?   // a miss when it looked, whatever the cache holds by now
       case Hit(t) =>
         var cached := s.caches[s.locals[t].process];
         s.locals[t].reading.Statted? && cached.Some? && cached.value.key == s.locals[t].reading.key
       case Remember(t) => s.locals[t].reading.Fetched?
       case Return(t) => s.locals[t].reading.Answered?
       case Edit(doc) => c.editor
  }

  function SetLocal(s: Store, t: Thread, l: Local): Store {
    s.(locals := s.locals[t := l])
  }

  function SetGuard(s: Store, p: Process, g: Guard): Store {
    s.(guards := s.guards[p := g])
  }

  function Take(c: Config, s: Store, step: Step): Store
    requires Enabled(c, s, step)
  {
    match step
    case TakeGuard(t) =>
      SetGuard(s, s.locals[t].process, Guard(Some(t), 0, false))
    case Enter(t) =>
      var p := s.locals[t].process;
      SetGuard(s, p, Guard(Some(t), 1, c.flock)).(fileLock := if c.flock then Some(p) else s.fileLock)
    case Nest(t) =>
      var g := s.guards[s.locals[t].process];
      SetGuard(s, s.locals[t].process, g.(depth := g.depth + 1))
    case Leave(t) =>
      var (p, l) := (s.locals[t].process, s.locals[t]);
      var g := s.guards[p];
      if g.depth > 1 then SetGuard(s, p, g.(depth := g.depth - 1))
      else
        SetLocal(SetGuard(s, p, Guard(None, 0, false)), t, l.(view := None))
          .(fileLock := if g.handle then None else s.fileLock)
    case FreshRead(t) =>
      var l := s.locals[t];
      SetLocal(s, t, l.(view := Some(Current(s))))
        .(caches := s.caches[l.process := Some(Cached(KeyNow(s), Current(s)))])
    case Place(t, update) =>
      var l := s.locals[t];
      var doc := update(l.view.value);
      SetLocal(s, t, l.(view := None, placed := Some(doc)))
        .(versions := s.versions + [doc], commits := s.commits + [update])
    case Restat(t) =>
      var l := s.locals[t];
      SetLocal(s, t, l.(placed := None)).(caches := s.caches[l.process := Some(Cached(KeyNow(s), l.placed.value))])
    case Stat(t) =>
      SetLocal(s, t, s.locals[t].(reading := Statted(KeyNow(s))))
    case Fetch(t) =>
      SetLocal(s, t, s.locals[t].(reading := Fetched(s.locals[t].reading.key, Current(s))))
    case Hit(t) =>
      var l := s.locals[t];
      SetLocal(s, t, l.(reading := Answered(l.reading.key, s.caches[l.process].value.doc)))
    case Remember(t) =>
      var l := s.locals[t];
      SetLocal(s, t, l.(reading := Answered(l.reading.key, l.reading.doc)))
        .(caches := s.caches[l.process := Some(Cached(l.reading.key, l.reading.doc))])
    case Return(t) =>
      SetLocal(s, t, s.locals[t].(reading := Idle))
    case Edit(doc) =>
      s.(versions := s.versions + [doc])
  }

  /** Nobody is anywhere: the start of every run. */
  predicate Quiet(s: Store) {
    && Known(s) && |s.versions| == 1 && s.commits == [] && s.fileLock == None
    && (forall p :: p in s.guards ==> s.guards[p] == Guard(None, 0, false))
    && (forall t :: t in s.locals ==>
         s.locals[t].view == None && s.locals[t].placed == None && s.locals[t].reading == Idle)
    && (forall p :: p in s.caches ==> s.caches[p] == None)
  }

  /** A step that cannot be taken is waited out. */
  function Next(c: Config, s: Store, step: Step): Store {
    if Enabled(c, s, step) then Take(c, s, step) else s
  }

  /** Steps taken in order. */
  function Run(c: Config, s: Store, steps: seq<Step>): Store
    decreases |steps|
  {
    if steps == [] then s
    else Run(c, Next(c, s, steps[0]), steps[1..])
  }

  // ------------------------------------------------------------ the lock

  /** The threads can exclude each other: the file lock works, or they share one process. */
  predicate Excluding(c: Config, s: Store) {
    c.flock || forall t, u :: t in s.locals && u in s.locals ==> s.locals[t].process == s.locals[u].process
  }

  /** A process holds the file lock exactly while its depth is positive (where there is a file
      lock), and a thread that holds a view of the document or has just written it is inside the
      scope. */
  predicate Locked(c: Config, s: Store) {
    && Known(s)
    && (forall p :: p in s.guards ==>
         && (s.guards[p].depth > 0 ==> s.guards[p].owner.Some?)
         && (s.guards[p].handle <==> c.flock && s.guards[p].depth > 0)
         && (s.guards[p].handle <==> s.fileLock == Some(p)))
    && (s.fileLock.Some? ==> s.fileLock.value in s.guards)
    && (forall t :: t in s.locals && (s.locals[t].view.Some? || s.locals[t].placed.Some?) ==> InScope(s, t))
  }

  /** At most one thread anywhere is inside the scope. */
  lemma OneInScope(c: Config, s: Store, t: Thread, u: Thread)
    requires Locked(c, s) && Excluding(c, s) && t in s.locals && u in s.locals && InScope(s, t) && InScope(s, u)
    ensures t == u
  {
    var (p, q) := (s.locals[t].process, s.locals[u].process);
    assert s.guards[p].handle == c.flock && s.guards[q].handle == c.flock;
  }

  lemma EnterLocked(c: Config, s: Store, step: Step)
    requires Locked(c, s) && Enabled(c, s, step) && (step.TakeGuard? || step.Enter?)
    ensures Locked(c, Take(c, s, step))
  {
    var n := Take(c, s, step);
    var p := s.locals[step.t].process;
    assert !s.guards[p].handle;
    forall t | t in n.locals && (n.locals[t].view.Some? || n.locals[t].placed.Some?)
      ensures InScope(n, t)
    {
      assert InScope(s, t) && s.locals[t].process != p;
    }
  }

  lemma LeaveLocked(c: Config, s: Store, step: Step)
    requires Locked(c, s) && Excluding(c, s) && Enabled(c, s, step) && (step.Nest? || step.Leave?)
    ensures Locked(c, Take(c, s, step))
  {
    var n := Take(c, s, step);
    forall t | t in n.locals && (n.locals[t].view.Some? || n.locals[t].placed.Some?)
      ensures InScope(n, t)
    {
      assert InScope(s, t);
      OneInScope(c, s, t, step.t);
    }
  }

  /** Neither lock moved, and whoever holds a view or a fresh write was in the scope already. */
  predicate SameLocks(s: Store, n: Store)
    requires Known(s)
  {
    && n.versions != [] && n.caches.Keys == s.caches.Keys
    && n.guards == s.guards && n.fileLock == s.fileLock && n.locals.Keys == s.locals.Keys
    && (forall t :: t in n.locals ==> n.locals[t].process == s.locals[t].process)
    && (forall t :: t in n.locals && (n.locals[t].view.Some? || n.locals[t].placed.Some?) ==> InScope(s, t))
  }

  lemma SameLocksLocked(c: Config, s: Store, n: Store)
    requires Locked(c, s) && SameLocks(s, n)
    ensures Locked(c, n)
  {
  }

  predicate ScopedData(step: Step) {
    step.FreshRead? || step.Place? || step.Restat?
  }

  predicate OpenData(step: Step) {
    step.Stat? || step.Fetch? || step.Hit? || step.Remember? || step.Return? || step.Edit?
  }

  lemma ScopedSameLocks(c: Config, s: Store, step: Step)
    requires Locked(c, s) && Enabled(c, s, step) && ScopedData(step)
    ensures SameLocks(s, Take(c, s, step))
  {
  }

  lemma OpenSameLocks(c: Config, s: Store, step: Step)
    requires Locked(c, s) && Enabled(c, s, step) && OpenData(step)
    ensures SameLocks(s, Take(c, s, step))
  {
  }

  /** Every step keeps the lock discipline. */
  lemma StepLocked(c: Config, s: Store, step: Step)
    requires Locked(c, s) && Excluding(c, s) && Enabled(c, s, step)
    ensures Locked(c, Take(c, s, step)) && Excluding(c, Take(c, s, step))
  {
    if step.TakeGuard? || step.Enter? {
      EnterLocked(c, s, step);
    } else if step.Nest? || step.Leave? {
      LeaveLocked(c, s, step);
    } else if ScopedData(step) {
      ScopedSameLocks(c, s, step);
      SameLocksLocked(c, s, Take(c, s, step));
    } else {
      OpenSameLocks(c, s, step);
      SameLocksLocked(c, s, Take(c, s, step));
    }
  }

  /** Only the outermost scope takes or releases the file lock. */
  lemma InnerScopesLeaveTheFileLock(c: Config, s: Store, step: Step)
    requires Locked(c, s) && Enabled(c, s, step) && Take(c, s, step).fileLock != s.fileLock
    ensures step.Enter? || step.Leave?
    ensures var p := s.locals[step.t].process;
            if step.Enter? then s.guards[p].depth == 0 && s.fileLock == None && Take(c, s, step).fileLock == Some(p)
            else s.guards[p].depth == 1 && s.fileLock == Some(p) && Take(c, s, step).fileLock == None
  {
  }

  /** How many scopes a thread has open. */
  function DepthOf(s: Store, t: Thread): nat
    requires Known(s) && t in s.locals
  {
    var g := s.guards[s.locals[t].process];
    if g.owner == Some(t) then g.depth else 0
  }

  /** One scope opened, one closed, or neither; a step that is waited out is neither. */
  function OpenedBy(c: Config, s: Store, step: Step, t: Thread): int {
    if !Enabled(c, s, step) then 0
    else if step == Enter(t) || step == Nest(t) then 1
    else if step == Leave(t) then -1
    else 0
  }

  /** The scopes thread `t` opens in a run less those it closes. */
  function Opened(c: Config, s: Store, steps: seq<Step>, t: Thread): int
    decreases |steps|
  {
    if steps == [] then 0
    else OpenedBy(c, s, steps[0], t) + Opened(c, Next(c, s, steps[0]), steps[1..], t)
  }

  lemma StepDepth(c: Config, s: Store, step: Step, t: Thread)
    requires Locked(c, s) && Enabled(c, s, step) && t in s.locals
    ensures var n := Take(c, s, step);
      && Known(n) && t in n.locals && n.locals[t].process == s.locals[t].process
      && DepthOf(n, t) == DepthOf(s, t) + OpenedBy(c, s, step, t)
  {
    StepKnown(c, s, step);
  }

  lemma NextDepth(c: Config, s: Store, step: Step, t: Thread)
    requires Locked(c, s) && Excluding(c, s) && t in s.locals
    ensures var n := Next(c, s, step);
      && Locked(c, n) && Excluding(c, n) && t in n.locals && n.locals[t].process == s.locals[t].process
      && DepthOf(n, t) == DepthOf(s, t) + OpenedBy(c, s, step, t)
  {
    if Enabled(c, s, step) {
      StepLocked(c, s, step);
      StepDepth(c, s, step, t);
    }
  }

  lemma {:induction false} RunDepth(c: Config, s: Store, steps: seq<Step>, t: Thread)
    requires Locked(c, s) && Excluding(c, s) && t in s.locals
    ensures var n := Run(c, s, steps);
      && Locked(c, n) && t in n.locals && n.locals[t].process == s.locals[t].process
      && DepthOf(n, t) == DepthOf(s, t) + Opened(c, s, steps, t)
    decreases |steps|
  {
    if steps != [] {
      NextDepth(c, s, steps[0], t);
      RunDepth(c, Next(c, s, steps[0]), steps[1..], t);
    }
  }

  /** Over every run, whatever other threads do, a thread is in the scope exactly while it has opened
      more scopes than it has closed, and for as long the file lock is with its process: an inner
      exit leaves both as they were. */
  lemma InScopeWhileOpen(c: Config, s: Store, steps: seq<Step>, t: Thread)
    requires Locked(c, s) && Excluding(c, s) && t in s.locals
    ensures var n := Run(c, s, steps);
      && Locked(c, n) && t in n.locals
      && (InScope(n, t) <==> DepthOf(s, t) + Opened(c, s, steps, t) > 0)
      && (InScope(n, t) && c.flock ==> n.fileLock == Some(s.locals[t].process))
  {
    RunDepth(c, s, steps, t);
    var n := Run(c, s, steps);
    assert n.locals[t].process in n.guards;
  }

  // ------------------------------------------------------------ no update is lost

  /** The document after applying updates one after the other. */
  function Replay(doc: Doc, updates: seq<Doc -> Doc>): Doc {
    if updates == [] then doc else updates[|updates| - 1](Replay(doc, updates[..|updates| - 1]))
  }

  /** The file is the replay of every update ever written, and a view held inside the scope is the
      file as it is. */
  predicate Exact(s: Store)
    requires Known(s)
  {
    && Current(s) == Replay(s.versions[0], s.commits)
    && (forall t :: t in s.locals && s.locals[t].view.Some? ==> s.locals[t].view.value == Current(s))
    && (forall t :: t in s.locals && s.locals[t].placed.Some? ==> s.locals[t].placed.value == Current(s))
  }

  /** After a write nobody else holds a view or a fresh write. */
  lemma PlaceAlone(c: Config, s: Store, step: Step, t: Thread)
    requires Locked(c, s) && Excluding(c, s) && Enabled(c, s, step) && step.Place?
    requires t in s.locals && t != step.t
    ensures s.locals[t].view.None? && s.locals[t].placed.None?
  {
    if s.locals[t].view.Some? || s.locals[t].placed.Some? {
      assert InScope(s, t);
      OneInScope(c, s, t, step.t);
    }
  }

  lemma PlaceViews(c: Config, s: Store, step: Step)
    requires Locked(c, s) && Excluding(c, s) && Enabled(c, s, step) && step.Place?
    ensures var n := Take(c, s, step);
      forall t :: t in n.locals ==>
        n.locals[t].view.None? && (n.locals[t].placed.Some? ==> n.locals[t].placed.value == Current(n))
  {
    var n := Take(c, s, step);
    forall t | t in n.locals
      ensures n.locals[t].view.None? && (n.locals[t].placed.Some? ==> n.locals[t].placed.value == Current(n))
    {
      if t != step.t {
        PlaceAlone(c, s, step, t);
      }
    }
  }

  lemma PlaceReplays(c: Config, s: Store, step: Step)
    requires Locked(c, s) && Exact(s) && Enabled(c, s, step) && step.Place?
    ensures var n := Take(c, s, step);
      n.versions[0] == s.versions[0] && Current(n) == Replay(n.versions[0], n.commits)
  {
    var n := Take(c, s, step);
    assert n.commits[..|n.commits| - 1] == s.commits;
  }

  lemma PlaceExact(c: Config, s: Store, step: Step)
    requires Locked(c, s) && Excluding(c, s) && Exact(s) && Enabled(c, s, step) && step.Place?
    ensures var n := Take(c, s, step); Known(n) && Exact(n) && n.versions[0] == s.versions[0]
  {
    PlaceViews(c, s, step);
    PlaceReplays(c, s, step);
  }

  /** Nothing but `Place` writes the file or commits an update, when there is no editor. */
  lemma OthersExact(c: Config, s: Store, step: Step)
    requires Known(s) && Exact(s) && Enabled(c, s, step) && !step.Place? && !step.Edit?
    ensures Known(Take(c, s, step)) ==> Exact(Take(c, s, step)) && Take(c, s, step).versions == s.versions
  {
    var n := Take(c, s, step);
    assert n.versions == s.versions && n.commits == s.commits;
  }

  lemma StepExact(c: Config, s: Store, step: Step)
    requires Locked(c, s) && Excluding(c, s) && Exact(s) && Enabled(c, s, step) && !c.editor
    ensures var n := Take(c, s, step); Known(n) && Exact(n) && n.versions[0] == s.versions[0]
  {
    StepLocked(c, s, step);
    if step.Place? {
      PlaceExact(c, s, step);
    } else {
      OthersExact(c, s, step);
    }
  }

  lemma QuietInvariants(c: Config, s: Store)
    requires Quiet(s)
    ensures Locked(c, s) && Exact(s) && Truthful(s) && Settled(s)
  {
  }

  /** Over every interleaving in which the threads can exclude each other and nobody edits the file
      from outside, the file is exactly all committed updates applied in commit order. */
  lemma {:induction false} NoLostUpdate(c: Config, s: Store, steps: seq<Step>)
    requires Locked(c, s) && Excluding(c, s) && Exact(s) && !c.editor
    ensures var n := Run(c, s, steps);
            && Locked(c, n) && Excluding(c, n) && Exact(n)
            && Current(n) == Replay(s.versions[0], n.commits)
    decreases |steps|
  {
    if steps != [] {
      if Enabled(c, s, steps[0]) {
        StepLocked(c, s, steps[0]);
        StepExact(c, s, steps[0]);
        NoLostUpdate(c, Take(c, s, steps[0]), steps[1..]);
      } else {
        NoLostUpdate(c, s, steps[1..]);
      }
    }
  }

  // ------------------------------------------------------------ cached reads

  /** `doc` was the file's content at some instant since version `key` was current. */
  predicate SeenSince(s: Store, key: nat, doc: Doc) {
    exists j :: key <= j < |s.versions| && s.versions[j] == doc
  }

  /** Every cache entry, and everything a read carries, was current no earlier than its stat key. */
  predicate Truthful(s: Store) {
    && (forall p :: p in s.caches && s.caches[p].Some? ==> SeenSince(s, s.caches[p].value.key, s.caches[p].value.doc))
    && (forall t :: t in s.locals && s.locals[t].reading.Statted? ==> s.locals[t].reading.key < |s.versions|)
    && (forall t :: t in s.locals && (s.locals[t].reading.Fetched? || s.locals[t].reading.Answered?) ==>
         SeenSince(s, s.locals[t].reading.key, s.locals[t].reading.doc))
  }

  lemma SeenLater(s: Store, n: Store)
    requires s.versions <= n.versions
    ensures forall key: nat, doc :: SeenSince(s, key, doc) ==> SeenSince(n, key, doc)
  {
    forall key: nat, doc | SeenSince(s, key, doc)
      ensures SeenSince(n, key, doc)
    {
      var j :| key <= j < |s.versions| && s.versions[j] == doc;
      assert n.versions[j] == doc;
    }
  }

  lemma SeenNow(s: Store, key: nat)
    requires s.versions != [] && key < |s.versions|
    ensures SeenSince(s, key, Current(s))
  {
    assert s.versions[|s.versions| - 1] == Current(s);
  }

  lemma OpenTruthful(c: Config, s: Store, step: Step)
    requires Known(s) && Truthful(s) && Enabled(c, s, step) && OpenData(step)
    ensures Truthful(Take(c, s, step))
  {
    SeenLater(s, Take(c, s, step));
    if step.Fetch? {
      SeenNow(s, s.locals[step.t].reading.key);
    }
  }

  lemma ScopedTruthful(c: Config, s: Store, step: Step)
    requires Known(s) && Truthful(s) && Enabled(c, s, step) && ScopedData(step)
    requires step.Restat? ==> s.locals[step.t].placed.value == Current(s)
    ensures Truthful(Take(c, s, step))
  {
    SeenLater(s, Take(c, s, step));
    SeenNow(s, KeyNow(s));
  }

  /** A write leaves the cache truthful exactly when the file still holds what it wrote at the
      moment it stats it again. */
  lemma RestatTruthfulIff(c: Config, s: Store, t: Thread)
    requires Known(s) && Truthful(s) && Enabled(c, s, Restat(t))
    ensures Truthful(Take(c, s, Restat(t))) <==> s.locals[t].placed.value == Current(s)
  {
    var n := Take(c, s, Restat(t));
    var p := s.locals[t].process;
    if s.locals[t].placed.value == Current(s) {
      ScopedTruthful(c, s, Restat(t));
    } else {
      assert n.caches[p] == Some(Cached(KeyNow(s), s.locals[t].placed.value));
      assert !SeenSince(n, KeyNow(s), s.locals[t].placed.value);
    }
  }

  lemma LocksTruthful(c: Config, s: Store, step: Step)
    requires Known(s) && Truthful(s) && Enabled(c, s, step) && !ScopedData(step) && !OpenData(step)
    ensures Truthful(Take(c, s, step))
  {
    SeenLater(s, Take(c, s, step));
  }

  lemma StepKnown(c: Config, s: Store, step: Step)
    requires Enabled(c, s, step)
    ensures Known(Take(c, s, step))
  {
  }

  predicate FaithfulStep(c: Config, s: Store, step: Step) {
    Enabled(c, s, step) && step.Restat? ==> s.locals[step.t].placed.value == Current(s)
  }

  lemma StepTruthfulIff(c: Config, s: Store, step: Step)
    requires Truthful(s) && Enabled(c, s, step)
    ensures Truthful(Take(c, s, step)) <==> FaithfulStep(c, s, step)
  {
    if step.Restat? {
      RestatTruthfulIff(c, s, step.t);
    } else if ScopedData(step) {
      ScopedTruthful(c, s, step);
    } else if OpenData(step) {
      OpenTruthful(c, s, step);
    } else {
      LocksTruthful(c, s, step);
    }
  }

  /** Whenever a writer stats the file again, it still holds what the writer put there. */
  predicate FaithfulWrites(c: Config, s: Store, steps: seq<Step>)
    decreases |steps|
  {
    steps != [] ==> FaithfulStep(c, s, steps[0]) && FaithfulWrites(c, Next(c, s, steps[0]), steps[1..])
  }

  ghost predicate TruthfulThroughout(c: Config, s: Store, steps: seq<Step>)
    decreases |steps|
  {
    Truthful(s) && (steps != [] ==> TruthfulThroughout(c, Next(c, s, steps[0]), steps[1..]))
  }

  lemma {:induction false} TruthfulAtTheEnd(c: Config, s: Store, steps: seq<Step>)
    requires TruthfulThroughout(c, s, steps)
    ensures Truthful(Run(c, s, steps))
    decreases |steps|
  {
    if steps != [] {
      TruthfulAtTheEnd(c, Next(c, s, steps[0]), steps[1..]);
    }
  }

  /** With or without an editor, with or without the lock: the caches and every read are truthful at
      every moment of a run exactly when no writer finds the file changed when it stats it again. */
  lemma {:induction false} TruthfulThroughoutIff(c: Config, s: Store, steps: seq<Step>)
    requires Known(s) && Truthful(s)
    ensures TruthfulThroughout(c, s, steps) <==> FaithfulWrites(c, s, steps)
    decreases |steps|
  {
    if steps != [] {
      if Enabled(c, s, steps[0]) {
        StepKnown(c, s, steps[0]);
        StepTruthfulIff(c, s, steps[0]);
      }
      var n := Next(c, s, steps[0]);
      if Truthful(n) {
        TruthfulThroughoutIff(c, n, steps[1..]);
      }
    }
  }

  /** What a read or a write of the file came by, and may put in the cache. */
  function CameBy(s: Store, step: Step): (doc: Option<Doc>)
    requires Known(s) && (step.FreshRead? || step.Remember? || step.Restat? ==> step.t in s.locals)
  {
    match step
    case FreshRead(t) => Some(Current(s))
    case Remember(t) => if s.locals[t].reading.Fetched? then Some(s.locals[t].reading.doc) else None
    case Restat(t) => s.locals[t].placed
    case _ => None
  }

  /** The cache does its work: after a fresh read, a miss or a write under the stat key the file still
      has, the next unlocked read of any thread of the process answers the same document without
      touching the bytes. */
  lemma CacheServes(c: Config, s: Store, step: Step, u: Thread)
    requires Enabled(c, s, step) && (step.FreshRead? || step.Remember? || step.Restat?)
    requires step.Remember? ==> s.locals[step.t].reading.key == KeyNow(s)
    requires u in s.locals && s.locals[u].process == s.locals[step.t].process
    requires s.locals[u].reading == Idle && !InScope(s, u)
    ensures var n := Take(c, s, step);
      && Enabled(c, n, Stat(u)) && Enabled(c, Take(c, n, Stat(u)), Hit(u))
      && var m := Take(c, Take(c, n, Stat(u)), Hit(u));
         CameBy(s, step).Some? && m.locals[u].reading == Answered(KeyNow(s), CameBy(s, step).value)
  {
    var n := Take(c, s, step);
    assert n.guards == s.guards && n.versions == s.versions;
  }

  /** A thread is between its `os.replace` and the stat after it. */
  predicate Writing(s: Store) {
    exists t :: t in s.locals && s.locals[t].placed.Some?
  }

  /** What a writer has put in place is what the file holds. */
  predicate Settled(s: Store)
    requires Known(s)
  {
    forall t :: t in s.locals && s.locals[t].placed.Some? ==> s.locals[t].placed.value == Current(s)
  }

  /** Whoever edits the file by hand does so while no thread is between its write and its stat. */
  predicate EditsWait(c: Config, s: Store, steps: seq<Step>)
    decreases |steps|
  {
    steps != [] ==>
      && (Enabled(c, s, steps[0]) && steps[0].Edit? ==> !Writing(s))
      && EditsWait(c, Next(c, s, steps[0]), steps[1..])
  }

  /** Nothing else moves the file, and nobody else has just written. */
  lemma OthersKeepTheFile(c: Config, s: Store, step: Step)
    requires Enabled(c, s, step) && !step.Place? && !step.Edit?
    ensures Take(c, s, step).versions == s.versions
  {
  }

  lemma OthersPlaceNothing(c: Config, s: Store, step: Step, t: Thread)
    requires Enabled(c, s, step) && !step.Place? && t in Take(c, s, step).locals
    ensures t in s.locals
      && (Take(c, s, step).locals[t].placed.Some? ==> Take(c, s, step).locals[t].placed == s.locals[t].placed)
  {
  }

  lemma StepSettled(c: Config, s: Store, step: Step)
    requires Locked(c, s) && Excluding(c, s) && Settled(s) && Enabled(c, s, step) && (step.Edit? ==> !Writing(s))
    ensures var n := Take(c, s, step); Known(n) && Settled(n)
  {
    StepKnown(c, s, step);
    var n := Take(c, s, step);
    if step.Place? {
      PlaceViews(c, s, step);
    } else {
      forall t | t in n.locals && n.locals[t].placed.Some?
        ensures n.locals[t].placed.value == Current(n)
      {
        OthersPlaceNothing(c, s, step, t);
        if !step.Edit? {
          OthersKeepTheFile(c, s, step);
        }
      }
    }
  }

  lemma {:induction false} EditsThatWait(c: Config, s: Store, steps: seq<Step>)
    requires Locked(c, s) && Excluding(c, s) && Settled(s) && EditsWait(c, s, steps)
    ensures FaithfulWrites(c, s, steps)
    decreases |steps|
  {
    if steps != [] {
      if Enabled(c, s, steps[0]) {
        StepLocked(c, s, steps[0]);
        StepSettled(c, s, steps[0]);
      }
      EditsThatWait(c, Next(c, s, steps[0]), steps[1..]);
    }
  }

  /** Over every interleaving in which the threads can exclude each other and no edit by hand falls
      between a thread's write and its stat, what an unlocked read answers was the file's content at
      some instant between its stat and its return, whether or not it came from the cache. */
  lemma ReadsAreCurrent(c: Config, s: Store, steps: seq<Step>)
    requires Locked(c, s) && Excluding(c, s) && Settled(s) && Truthful(s) && EditsWait(c, s, steps)
    ensures Truthful(Run(c, s, steps))
  {
    EditsThatWait(c, s, steps);
    TruthfulThroughoutIff(c, s, steps);
    TruthfulAtTheEnd(c, s, steps);
  }

  /** A document nobody edits by hand meets that condition in every run. */
  lemma {:induction false} NoEditorWaits(c: Config, s: Store, steps: seq<Step>)
    requires !c.editor
    ensures EditsWait(c, s, steps)
    decreases |steps|
  {
    if steps != [] {
      NoEditorWaits(c, Next(c, s, steps[0]), steps[1..]);
    }
  }

  // ------------------------------------------------------------ the documented gaps

  function Put(key: string): Doc -> Doc {
    doc => doc[key := "row"]
  }

  lemma {:induction false} RunAppend(c: Config, s: Store, a: seq<Step>, b: seq<Step>)
    ensures Run(c, s, a + b) == Run(c, Run(c, s, a), b)
    decreases |a|
  {
    if a == [] {
      assert a + b == b;
    } else {
      assert (a + b)[1..] == a[1..] + b;
      RunAppend(c, Next(c, s, a[0]), a[1..], b);
    }
  }

  /** Thread `t` gets into the outermost scope and reads. */
  function Begin(t: Thread): seq<Step> {
    [TakeGuard(t), Enter(t), FreshRead(t)]
  }

  /** The guard of `t`'s process is free and `t` is doing nothing. */
  predicate Ready(s: Store, t: Thread) {
    && Known(s) && t in s.locals
    && s.guards[s.locals[t].process] == Guard(None, 0, false)
    && s.locals[t] == Local(s.locals[t].process, None, None, Idle)
  }

  /** The state once `t` is in the scope with a fresh view. */
  function Begun(c: Config, s: Store, t: Thread): Store
    requires Ready(s, t)
  {
    var p := s.locals[t].process;
    s.(guards := s.guards[p := Guard(Some(t), 1, c.flock)],
       fileLock := if c.flock then Some(p) else s.fileLock,
       locals := s.locals[t := Local(p, Some(Current(s)), None, Idle)],
       caches := s.caches[p := Some(Cached(KeyNow(s), Current(s)))])
  }

  lemma RunBegin(c: Config, s: Store, t: Thread)
    requires Ready(s, t) && s.fileLock == None
    ensures Run(c, s, Begin(t)) == Begun(c, s, t)
  {
    var s1 := Take(c, s, TakeGuard(t));
    var s2 := Take(c, s1, Enter(t));
    assert s2.guards == s.guards[s.locals[t].process := Guard(Some(t), 1, c.flock)];
    RunOne(c, s2, FreshRead(t));
    assert Begin(t)[1..] == [Enter(t), FreshRead(t)] && Begin(t)[1..][1..] == [FreshRead(t)];
  }

  lemma RunOne(c: Config, s: Store, step: Step)
    requires Enabled(c, s, step)
    ensures Run(c, s, [step]) == Take(c, s, step)
  {
    assert [step][1..] == [];
  }

  lemma RunThen(c: Config, s: Store, steps: seq<Step>, m: Store, step: Step)
    requires Run(c, s, steps) == m && Enabled(c, m, step)
    ensures Run(c, s, steps + [step]) == Take(c, m, step)
  {
    RunAppend(c, s, steps, [step]);
    RunOne(c, m, step);
  }

  predicate LostAnUpdate(s: Store) {
    Known(s) && Current(s) != Replay(s.versions[0], s.commits)
  }

  /** Two writes from the same view: the second one wins, the first row is gone. */
  lemma SecondWriteWins(c: Config, s: Store, t: Thread, u: Thread)
    requires Known(s) && t in s.locals && u in s.locals && t != u && InScope(s, t) && InScope(s, u)
    requires s.locals[t] == Local(s.locals[t].process, Some(map[]), None, Idle)
    requires s.locals[u] == Local(s.locals[u].process, Some(map[]), None, Idle)
    requires s.versions == [map[]] && s.commits == []
    ensures Enabled(c, s, Place(t, Put("a"))) && Enabled(c, Take(c, s, Place(t, Put("a"))), Place(u, Put("b")))
    ensures LostAnUpdate(Take(c, Take(c, s, Place(t, Put("a"))), Place(u, Put("b"))))
  {
    var m := Take(c, s, Place(t, Put("a")));
    var n := Take(c, m, Place(u, Put("b")));
    assert Current(n) == Put("b")(map[]) && "a" !in Current(n);
    assert n.commits[..1] == [Put("a")] && [Put("a")][..0] == [];
    assert "a" in Replay(map[], n.commits);
  }

  /** With no file lock, threads of two processes are in the scope together, with the same view. */
  lemma BothBegin(s: Store, t: Thread, u: Thread)
    requires Quiet(s) && s.versions == [map[]] && t in s.locals && u in s.locals
    requires s.locals[t].process != s.locals[u].process
    ensures var n := Run(Config(false, false), s, Begin(t) + Begin(u));
            && Known(n) && t in n.locals && u in n.locals && InScope(n, t) && InScope(n, u)
            && n.locals[t] == Local(n.locals[t].process, Some(map[]), None, Idle)
            && n.locals[u] == Local(n.locals[u].process, Some(map[]), None, Idle)
            && n.versions == [map[]] && n.commits == []
  {
    var c := Config(false, false);
    RunBegin(c, s, t);
    RunBegin(c, Begun(c, s, t), u);
    RunAppend(c, s, Begin(t), Begin(u));
  }

  /** Without a file lock two processes lose an update in some run, from every quiet start with an
      empty document. */
  lemma DegradedLosesAnUpdate(s: Store, t: Thread, u: Thread)
    requires Quiet(s) && s.versions == [map[]] && t in s.locals && u in s.locals
    requires s.locals[t].process != s.locals[u].process
    ensures exists steps :: LostAnUpdate(Run(Config(false, false), s, steps))
  {
    var c, both := Config(false, false), Begin(t) + Begin(u);
    var n := Run(c, s, both);
    BothBegin(s, t, u);
    SecondWriteWins(c, n, t, u);
    RunThen(c, s, both, n, Place(t, Put("a")));
    RunThen(c, s, both + [Place(t, Put("a"))], Take(c, n, Place(t, Put("a"))), Place(u, Put("b")));
  }

  /** A write of one row by a thread that has just begun, and the edit that follows it. */
  function PlacedBy(c: Config, s: Store, t: Thread): Store
    requires Ready(s, t)
  {
    var m := Begun(c, s, t);
    assert Enabled(c, m, Place(t, Put("a")));
    Take(c, m, Place(t, Put("a")))
  }

  lemma EditedState(s: Store, t: Thread, doc: Doc)
    requires Quiet(s) && t in s.locals
    ensures var c := Config(true, true);
            && Enabled(c, PlacedBy(c, s, t), Edit(doc))
            && var n := Take(c, PlacedBy(c, s, t), Edit(doc));
               Truthful(n) && Enabled(c, n, Restat(t)) && Current(n) == doc
                 && n.locals[t].placed == Some(Put("a")(Current(s)))
  {
    var c := Config(true, true);
    QuietInvariants(c, s);
    EditTruthful(c, s, t, Begun(c, s, t), PlacedBy(c, s, t), Take(c, PlacedBy(c, s, t), Edit(doc)), doc);
  }

  /** A writer is about to stat the file it has just written when the editor replaces it. */
  lemma EditedUnderneath(s: Store, t: Thread, doc: Doc)
    requires Quiet(s) && t in s.locals
    ensures var c := Config(true, true);
            && Enabled(c, PlacedBy(c, s, t), Edit(doc))
            && Run(c, s, Begin(t) + [Place(t, Put("a"))] + [Edit(doc)]) == Take(c, PlacedBy(c, s, t), Edit(doc))
  {
    var c := Config(true, true);
    EditedState(s, t, doc);
    RunBegin(c, s, t);
    RunThen(c, s, Begin(t), Begun(c, s, t), Place(t, Put("a")));
    RunThen(c, s, Begin(t) + [Place(t, Put("a"))], PlacedBy(c, s, t), Edit(doc));
  }

  /** `oidc.json` is also edited by hand, which takes no lock. An edit between `os.replace` and the
      stat after it leaves the program's own text in the cache under the editor's stat key. */
  lemma EditorPoisonsTheCache(s: Store, t: Thread, doc: Doc)
    requires Quiet(s) && t in s.locals && Put("a")(Current(s)) != doc
    ensures exists steps :: !Truthful(Run(Config(true, true), s, steps))
  {
    var c, steps := Config(true, true), Begin(t) + [Place(t, Put("a"))] + [Edit(doc)];
    var n := Run(c, s, steps);
    EditedUnderneath(s, t, doc);
    EditedState(s, t, doc);
    RestatTruthfulIff(c, n, t);
    RunThen(c, s, steps, n, Restat(t));
  }

  /** Up to the edit nothing is wrong with the cache. */
  lemma EditTruthful(c: Config, s: Store, t: Thread, m: Store, placed: Store, edited: Store, doc: Doc)
    requires Truthful(s) && Ready(s, t) && m == Begun(c, s, t)
    requires Enabled(c, m, Place(t, Put("a"))) && placed == Take(c, m, Place(t, Put("a")))
    requires Enabled(c, placed, Edit(doc)) && edited == Take(c, placed, Edit(doc))
    ensures Truthful(edited)
  {
    SeenLater(s, m);
    SeenNow(m, KeyNow(m));
    assert Truthful(m);
    ScopedTruthful(c, m, Place(t, Put("a")));
    OpenTruthful(c, placed, Edit(doc));
  }
}
