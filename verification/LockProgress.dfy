/** The store's locks never shut anybody out: from every state a run can reach, whichever thread is
    where, some way of letting the threads go on gets any of them to its update. */
module LockProgress {
  import opened Options
  import opened StoreLock

  /** Whoever holds a process's re-entrant lock is a thread of that process. */
  ghost predicate Owned(s: Store)
    requires Known(s)
  {
    forall p :: p in s.guards && s.guards[p].owner.Some? ==> OwnThread(s, p, s.guards[p].owner.value)
  }

  predicate OwnThread(s: Store, p: Process, t: Thread) {
    t in s.locals && s.locals[t].process == p
  }

  ghost predicate Good(c: Config, s: Store) {
    Locked(c, s) && Excluding(c, s) && Owned(s)
  }

  lemma StepOwned(c: Config, s: Store, step: Step)
    requires Locked(c, s) && Owned(s) && Enabled(c, s, step)
    ensures Known(Take(c, s, step)) && Owned(Take(c, s, step))
  {
    StepKnown(c, s, step);
    var n := Take(c, s, step);
    forall p | p in n.guards && n.guards[p].owner.Some?
      ensures OwnThread(n, p, n.guards[p].owner.value)
    {
      OwnerStays(c, s, step, p);
    }
  }

  lemma OwnerStays(c: Config, s: Store, step: Step, p: Process)
    requires Known(s) && Enabled(c, s, step) && p in Take(c, s, step).guards
    requires Take(c, s, step).guards[p].owner.Some?
    ensures var n := Take(c, s, step);
      var u := n.guards[p].owner.value;
      && p in s.guards && (s.guards[p].owner == Some(u) || OwnThread(s, p, u))
      && (OwnThread(s, p, u) ==> OwnThread(n, p, u))
  {
    StepKnown(c, s, step);
  }

  lemma NextGood(c: Config, s: Store, step: Step)
    requires Good(c, s)
    ensures Good(c, Next(c, s, step))
  {
    if Enabled(c, s, step) {
      StepLocked(c, s, step);
      StepOwned(c, s, step);
    }
  }

  lemma {:induction false} RunGood(c: Config, s: Store, steps: seq<Step>)
    requires Good(c, s)
    ensures Good(c, Run(c, s, steps))
    decreases |steps|
  {
    if steps != [] {
      NextGood(c, s, steps[0]);
      RunGood(c, Next(c, s, steps[0]), steps[1..]);
    }
  }

  // ------------------------------------------------------------ one thread at a time

  /** The same threads, and nothing written. */
  ghost predicate Undisturbed(s: Store, n: Store)
    requires Known(s)
  {
    && n.versions == s.versions && n.commits == s.commits && n.locals.Keys == s.locals.Keys
    && n.guards.Keys == s.guards.Keys
    && forall t :: t in s.locals ==> n.locals[t].process == s.locals[t].process
  }

  lemma StepUndisturbed(c: Config, s: Store, step: Step)
    requires Known(s) && Enabled(c, s, step) && !step.Place? && !step.Edit?
    ensures Undisturbed(s, Take(c, s, step))
  {
    var n := Take(c, s, step);
    if step.Leave? {
      assert n.locals.Keys == s.locals.Keys && n.guards.Keys == s.guards.Keys;
    }
  }

  /** One step of a thread. */
  lemma Step1(c: Config, s: Store, step: Step)
    requires Good(c, s) && Enabled(c, s, step) && !step.Place? && !step.Edit?
    ensures Good(c, Take(c, s, step)) && Undisturbed(s, Take(c, s, step)) && Next(c, s, step) == Take(c, s, step)
    ensures Run(c, s, [step]) == Take(c, s, step)
  {
    NextGood(c, s, step);
    StepUndisturbed(c, s, step);
    RunOne(c, s, step);
  }

  /** The guard of process `p` is free and no other guard has moved. */
  ghost predicate Freed(s: Store, n: Store, p: Process) {
    p in s.guards && n.guards == s.guards[p := Guard(None, 0, false)]
  }

  /** A thread in scope can finish its write and leave every scope it is in. */
  lemma {:induction false} WalksOut(c: Config, s: Store, u: Thread) returns (steps: seq<Step>)
    requires Good(c, s) && u in s.locals && InScope(s, u)
    ensures var n := Run(c, s, steps);
      Good(c, n) && Undisturbed(s, n) && Freed(s, n, s.locals[u].process)
    decreases s.guards[s.locals[u].process].depth, if s.locals[u].placed.Some? then 1 else 0
  {
    var p := s.locals[u].process;
    if s.locals[u].placed.Some? {
      Step1(c, s, Restat(u));
      var rest := WalksOut(c, Take(c, s, Restat(u)), u);
      steps := [Restat(u)] + rest;
      RunFirst(c, s, Restat(u), rest);
    } else {
      Step1(c, s, Leave(u));
      var m := Take(c, s, Leave(u));
      if s.guards[p].depth > 1 {
        var rest := WalksOut(c, m, u);
        steps := [Leave(u)] + rest;
        RunFirst(c, s, Leave(u), rest);
      } else {
        steps := [Leave(u)];
      }
    }
  }

  lemma RunFirst(c: Config, s: Store, step: Step, rest: seq<Step>)
    requires Enabled(c, s, step)
    ensures Run(c, s, [step] + rest) == Run(c, Take(c, s, step), rest)
  {
    assert ([step] + rest)[1..] == rest;
  }

  /** The file lock can always be got free. */
  lemma FileLockFrees(c: Config, s: Store) returns (steps: seq<Step>)
    requires Good(c, s)
    ensures var n := Run(c, s, steps); Good(c, n) && Undisturbed(s, n) && n.fileLock == None
  {
    steps := [];
    if s.fileLock.Some? {
      var p := s.fileLock.value;
      assert p in s.guards && s.guards[p].handle && s.guards[p].depth > 0;
      var u := s.guards[p].owner.value;
      assert OwnThread(s, p, u);
      steps := WalksOut(c, s, u);
      var n := Run(c, s, steps);
      LockGoesWithIt(c, s, n, p);
    }
  }

  lemma LockGoesWithIt(c: Config, s: Store, n: Store, p: Process)
    requires Good(c, s) && Good(c, n) && s.fileLock == Some(p) && Freed(s, n, p)
    ensures n.fileLock == None
  {
    assert forall q :: q in n.guards && n.guards[q].handle ==> s.guards[q].handle && q != p;
  }

  /** And so can the re-entrant lock of a process while nobody has the file lock. */
  lemma GuardFrees(c: Config, s: Store, p: Process) returns (steps: seq<Step>)
    requires Good(c, s) && p in s.guards && s.fileLock == None
    ensures var n := Run(c, s, steps);
      Good(c, n) && Undisturbed(s, n) && Freed(s, n, p) && n.fileLock == None
  {
    steps := [];
    var g := s.guards[p];
    if g.owner.Some? {
      var u := g.owner.value;
      assert OwnThread(s, p, u);
      if g.depth > 0 {
        steps := WalksOut(c, s, u);
        NoNewHandle(c, s, Run(c, s, steps), p);
      } else {
        Step1(c, s, Enter(u));
        var m := Take(c, s, Enter(u));
        var rest := WalksOut(c, m, u);
        steps := [Enter(u)] + rest;
        RunFirst(c, s, Enter(u), rest);
        NoNewHandle(c, s, Run(c, s, steps), p);
      }
    } else {
      assert g == Guard(None, 0, false);
      assert s.guards[p := g] == s.guards;
    }
  }

  lemma NoNewHandle(c: Config, s: Store, n: Store, p: Process)
    requires Good(c, s) && Good(c, n) && s.fileLock == None && Freed(s, n, p)
    ensures n.fileLock == None
  {
    assert forall q :: q in n.guards && n.guards[q].handle ==> s.guards[q].handle && q != p;
  }

  /** A read under way can always be finished. */
  lemma ReadEnds(c: Config, s: Store, t: Thread) returns (steps: seq<Step>)
    requires Good(c, s) && t in s.locals
    ensures var n := Run(c, s, steps);
      && Good(c, n) && Undisturbed(s, n) && n.guards == s.guards && n.fileLock == s.fileLock
      && n.locals[t].reading == Idle
    decreases match s.locals[t].reading case Idle => 0 case Answered(_, _) => 1 case Fetched(_, _) => 2
                                        case Statted(_) => 3
  {
    steps := [];
    if s.locals[t].reading != Idle {
      var step := match s.locals[t].reading
                  case Statted(_) => Fetch(t)
                  case Fetched(_, _) => Remember(t)
                  case _ => Return(t);
      Step1(c, s, step);
      var rest := ReadEnds(c, Take(c, s, step), t);
      steps := [step] + rest;
      RunFirst(c, s, step, rest);
    }
  }

  /** A thread whose locks are free walks in. */
  lemma WalksIn(c: Config, s: Store, t: Thread) returns (steps: seq<Step>)
    requires Good(c, s) && t in s.locals && s.locals[t].reading == Idle
    requires s.guards[s.locals[t].process] == Guard(None, 0, false) && s.fileLock == None
    ensures var n := Run(c, s, steps);
      Good(c, n) && Undisturbed(s, n) && n.guards[n.locals[t].process] == Guard(Some(t), 1, c.flock)
      && n.locals[t].placed == None
  {
    assert !InScope(s, t);
    Step1(c, s, TakeGuard(t));
    var m := Take(c, s, TakeGuard(t));
    Step1(c, m, Enter(t));
    RunFirst(c, s, TakeGuard(t), [Enter(t)]);
    steps := [TakeGuard(t)] + [Enter(t)];
  }

  /** So every thread can get into the scope. */
  lemma CanEnter(c: Config, s: Store, t: Thread) returns (steps: seq<Step>)
    requires Good(c, s) && t in s.locals
    ensures var n := Run(c, s, steps);
      Good(c, n) && Undisturbed(s, n) && n.guards[n.locals[t].process] == Guard(Some(t), 1, c.flock)
      && n.locals[t].placed == None
  {
    var a := FileLockFrees(c, s);
    var s1 := Run(c, s, a);
    var p := s1.locals[t].process;
    var b := GuardFrees(c, s1, p);
    var s2 := Run(c, s1, b);
    var d := ReadEnds(c, s2, t);
    var e := WalksIn(c, Run(c, s2, d), t);
    RunAppend(c, s2, d, e);
    RunAppend(c, s1, b, d + e);
    RunAppend(c, s, a, b + (d + e));
    steps := a + (b + (d + e));
  }

  // ------------------------------------------------------------ one update

  /** A thread in scope reads, writes and leaves. */
  function UpdateSteps(t: Thread, update: Doc -> Doc): seq<Step> {
    [FreshRead(t), Place(t, update), Restat(t), Leave(t)]
  }

  /** The document is what the update makes of it, the update is the last one committed, and the thread is
      out of the scope again with both locks free. */
  ghost predicate Updated(s: Store, n: Store, t: Thread, update: Doc -> Doc)
    requires Known(s)
  {
    && Known(n) && t in n.locals && n.versions == s.versions + [update(Current(s))] && n.commits == s.commits + [update]
    && n.guards[n.locals[t].process] == Guard(None, 0, false) && n.fileLock == None
  }

  lemma WritesAndLeaves(c: Config, s: Store, t: Thread, update: Doc -> Doc)
    requires Good(c, s) && t in s.locals && s.locals[t].placed == None && (!c.flock ==> s.fileLock == None)
    requires s.guards[s.locals[t].process] == Guard(Some(t), 1, c.flock)
    ensures Updated(s, Run(c, s, UpdateSteps(t, update)), t, update)
  {
    var s1 := Take(c, s, FreshRead(t));
    var s2 := Take(c, s1, Place(t, update));
    var s3 := Take(c, s2, Restat(t));
    RunOne(c, s3, Leave(t));
    RunFirst(c, s2, Restat(t), [Leave(t)]);
    RunFirst(c, s1, Place(t, update), [Restat(t)] + [Leave(t)]);
    RunFirst(c, s, FreshRead(t), [Place(t, update)] + ([Restat(t)] + [Leave(t)]));
    assert [FreshRead(t)] + ([Place(t, update)] + ([Restat(t)] + [Leave(t)])) == UpdateSteps(t, update);
  }

  /** After any run from rest there is a way to go on in which a given thread makes a given update, as the
      next one, of the document as it is then: no order of steps leads into a deadlock or starves a
      thread for good. */
  lemma EveryUpdateCanBeMade(c: Config, s: Store, steps: seq<Step>, t: Thread, update: Doc -> Doc)
    returns (more: seq<Step>)
    requires Quiet(s) && Excluding(c, s) && t in s.locals
    ensures Known(Run(c, s, steps))
    ensures Updated(Run(c, s, steps), Run(c, s, steps + more), t, update)
  {
    assert Good(c, s);
    RunGood(c, s, steps);
    var m := Run(c, s, steps);
    RunDepth(c, s, steps, t);
    var inside := CanEnter(c, m, t);
    var n := Run(c, m, inside);
    WritesAndLeaves(c, n, t, update);
    more := inside + UpdateSteps(t, update);
    RunAppend(c, m, inside, UpdateSteps(t, update));
    RunAppend(c, s, steps, more);
  }
}
