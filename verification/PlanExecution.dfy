/** `runs execute`: the per-plan lock file and the private execution root, as a step system over any number of
    processes. A process may stop for ever at any point, which leaves its lock and its root on the disk. */
module PlanExecution {
  import opened Wrappers

  type Pid = nat
  type Plan = string

  // `creator` is history: the process whose `create_dir` made the root.
  datatype Root = Root(creator: Pid, files: map<string, seq<int>>)

  datatype Pc =
    | Locked                             // the lock file was created; the pre-checks run
    | Filling                            // the root was created; the subject is copied into it
    | RollingBack                        // the copy failed; about to remove the root
    | Running(hasRoot: bool)             // the native process runs, under the root guard
    | Cleaning(ok: bool)                 // about to remove the root
    | Unlocking(ok: bool)                // about to drop the lock
    | Finished(ok: bool)

  datatype State = State(locks: set<Plan>, roots: map<Plan, Root>, procs: map<Pid, Pc>)

  const INIT := State({}, map[], map[])

  // The plan of each process, whether its subject has an execution root, and whether removing a root can fail.
  datatype Env = Env(plans: Pid -> Plan, needsRoot: Pid -> bool, cleanupMayFail: bool)

  datatype Action =
    | Acquire
    | AcquireFault
    | CheckFails
    | CreateRoot
    | SkipRoot
    | WriteFile(name: string, bytes: seq<int>)
    | Filled
    | FillFails
    | Remove           // the removal of a root, in a rollback or a cleanup
    | RemoveFault
    | RunEnds(ok: bool)
    | Unlock
    | UnlockFault

  datatype Event = Event(p: Pid, action: Action)

  function Goto(s: State, p: Pid, pc: Pc): State {
    s.(procs := s.procs[p := pc])
  }

  function Step(env: Env, s: State, p: Pid, a: Action): Option<State> {
    var plan := env.plans(p);
    if p !in s.procs then
      match a
      case Acquire =>
        if plan in s.locks then Some(Goto(s, p, Finished(false)))
        else Some(Goto(s.(locks := s.locks + {plan}), p, Locked))
      case AcquireFault => Some(Goto(s, p, Finished(false)))
      case _ => None
    else
      match (s.procs[p], a)
      case (Locked, CheckFails) => Some(Goto(s, p, Unlocking(false)))
      case (Locked, CreateRoot) =>
        if !env.needsRoot(p) then None
        else if plan in s.roots then Some(Goto(s, p, Unlocking(false)))
        else Some(Goto(s.(roots := s.roots[plan := Root(p, map[])]), p, Filling))
      case (Locked, SkipRoot) => if env.needsRoot(p) then None else Some(Goto(s, p, Running(false)))
      case (Filling, WriteFile(name, bytes)) =>
        if plan in s.roots
        then Some(s.(roots := s.roots[plan := s.roots[plan].(files := s.roots[plan].files[name := bytes])]))
        else None
      case (Filling, Filled) => Some(Goto(s, p, Running(true)))
      case (Filling, FillFails) => Some(Goto(s, p, RollingBack))
      case (RollingBack, Remove) => Some(Goto(s.(roots := s.roots - {plan}), p, Unlocking(false)))
      case (RollingBack, RemoveFault) => if env.cleanupMayFail then Some(Goto(s, p, Unlocking(false))) else None
      case (Running(hasRoot), RunEnds(ok)) => Some(Goto(s, p, if hasRoot then Cleaning(ok) else Unlocking(ok)))
      case (Cleaning(ok), Remove) => Some(Goto(s.(roots := s.roots - {plan}), p, Unlocking(ok)))
      case (Cleaning(ok), RemoveFault) => if env.cleanupMayFail then Some(Goto(s, p, Unlocking(false))) else None
      case (Unlocking(ok), Unlock) => Some(Goto(s.(locks := s.locks - {plan}), p, Finished(ok)))
      case (Unlocking(ok), UnlockFault) => Some(Goto(s, p, Finished(ok)))   // the drop ignores the error
      case _ => None
  }

  function Run(env: Env, events: seq<Event>): Option<State> {
    if events == [] then Some(INIT)
    else
      match Run(env, events[..|events| - 1])
      case None => None
      case Some(s) => Step(env, s, events[|events| - 1].p, events[|events| - 1].action)
  }

  /** Between the creation of the lock file and its drop. */
  predicate Holds(s: State, p: Pid) {
    p in s.procs && !s.procs[p].Finished?
  }

  /** Between the creation of the root and its removal. */
  predicate HasRoot(s: State, p: Pid) {
    p in s.procs &&
    match s.procs[p]
    case Filling => true
    case RollingBack => true
    case Running(hasRoot) => hasRoot
    case Cleaning(_) => true
    case _ => false
  }

  predicate RootIsHeld(env: Env, s: State, plan: Plan)
    requires plan in s.roots
  {
    var p := s.roots[plan].creator;
    HasRoot(s, p) && env.plans(p) == plan
  }

  // A lock file stands for at most one holder.
  ghost predicate LocksOk(env: Env, s: State) {
    (forall p | Holds(s, p) :: env.plans(p) in s.locks) &&
    forall p, q | Holds(s, p) && Holds(s, q) && env.plans(p) == env.plans(q) :: p == q
  }

  ghost predicate OwnRoot(env: Env, s: State, p: Pid) {
    env.plans(p) in s.roots && s.roots[env.plans(p)].creator == p
  }

  ghost predicate RootsOk(env: Env, s: State) {
    forall p | HasRoot(s, p) :: OwnRoot(env, s, p)
  }

  ghost predicate RootsHeld(env: Env, s: State) {
    forall plan | plan in s.roots :: RootIsHeld(env, s, plan)
  }

  ghost predicate Inv(env: Env, s: State) {
    LocksOk(env, s) && RootsOk(env, s) && (!env.cleanupMayFail ==> RootsHeld(env, s))
  }

  // What a step of `p` leaves alone.
  ghost predicate Leaves(env: Env, s: State, p: Pid, s': State) {
    && (forall q | q != p :: Holds(s', q) == Holds(s, q) && HasRoot(s', q) == HasRoot(s, q))
    && (forall plan | plan != env.plans(p) :: (plan in s'.locks <==> plan in s.locks) &&
          (plan in s'.roots <==> plan in s.roots) && (plan in s.roots ==> s'.roots[plan] == s.roots[plan]))
  }

  lemma StepLeaves(env: Env, s: State, p: Pid, a: Action, s': State)
    requires Step(env, s, p, a) == Some(s')
    ensures Leaves(env, s, p, s')
  {
  }

  // What a step does to the actor's own lock and root.
  ghost predicate Acts(env: Env, s: State, p: Pid, s': State) {
    var plan := env.plans(p);
    && (Holds(s', p) ==> plan in s'.locks && (Holds(s, p) || plan !in s.locks))
    && (!Holds(s, p) && !Holds(s', p) ==> s'.locks == s.locks)
    && (HasRoot(s, p) || HasRoot(s', p) || s'.roots == s.roots)
    && (HasRoot(s', p) ==> if HasRoot(s, p) then OwnRoot(env, s, p) && OwnRoot(env, s', p)
                           else OwnRoot(env, s', p) && plan !in s.roots)
    && (HasRoot(s, p) && !HasRoot(s', p) && !env.cleanupMayFail ==> plan !in s'.roots)
    && (plan in s.locks || !Holds(s, p))
  }

  lemma StepActs(env: Env, s: State, p: Pid, a: Action, s': State)
    requires Step(env, s, p, a) == Some(s')
    requires Holds(s, p) ==> env.plans(p) in s.locks
    requires HasRoot(s, p) ==> OwnRoot(env, s, p)
    ensures Acts(env, s, p, s')
  {
  }

  lemma LocksStayOk(env: Env, s: State, p: Pid, s': State)
    requires LocksOk(env, s) && Leaves(env, s, p, s') && Acts(env, s, p, s')
    ensures LocksOk(env, s')
  {
    hide HasRoot, Holds;
  }

  lemma RootsStayOk(env: Env, s: State, p: Pid, s': State)
    requires RootsOk(env, s) && (!env.cleanupMayFail ==> RootsHeld(env, s))
    requires Leaves(env, s, p, s') && Acts(env, s, p, s')
    ensures RootsOk(env, s') && (!env.cleanupMayFail ==> RootsHeld(env, s'))
  {
    hide HasRoot, Holds;
  }

  lemma InvStep(env: Env, s: State, p: Pid, a: Action, s': State)
    requires Inv(env, s) && Step(env, s, p, a) == Some(s')
    ensures Inv(env, s')
  {
    StepLeaves(env, s, p, a, s');
    StepActs(env, s, p, a, s');
    LocksStayOk(env, s, p, s');
    RootsStayOk(env, s, p, s');
    hide Step, Leaves, Acts, LocksOk, RootsOk, RootsHeld;
  }

  lemma {:induction false} InvRun(env: Env, events: seq<Event>, s: State)
    requires Run(env, events) == Some(s)
    ensures Inv(env, s)
  {
    if events != [] {
      var before := Run(env, events[..|events| - 1]).value;
      InvRun(env, events[..|events| - 1], before);
      InvStep(env, before, events[|events| - 1].p, events[|events| - 1].action, s);
    }
  }

  /** In every interleaving at most one process is between creating a plan's lock and dropping it. */
  lemma MutualExclusion(env: Env, events: seq<Event>, s: State, p: Pid, q: Pid)
    requires Run(env, events) == Some(s) && Holds(s, p) && Holds(s, q) && env.plans(p) == env.plans(q)
    ensures p == q && env.plans(p) in s.locks
  {
    InvRun(env, events, s);
  }

  /** No process ever removes or changes a root it did not create, even if cleanups fail and even if processes
      stop half way. */
  lemma OnlyOwnRootsAreTouched(env: Env, events: seq<Event>, s: State, p: Pid, a: Action, s': State, plan: Plan)
    requires Run(env, events) == Some(s) && Step(env, s, p, a) == Some(s') && plan in s.roots
    requires plan !in s'.roots || s'.roots[plan] != s.roots[plan]
    ensures s.roots[plan].creator == p && env.plans(p) == plan && Holds(s, p)
  {
    InvRun(env, events, s);
    StepLeaves(env, s, p, a, s');
    StepActs(env, s, p, a, s');
    hide Step;
  }

  /** Does a root exist only while its plan's lock file does, and its creator still holds it? */
  ghost predicate RootsOnlyUnderLock(cleanupMayFail: bool) {
    forall env: Env, events, s: State, plan | env.cleanupMayFail == cleanupMayFail && Run(env, events) == Some(s) &&
                                              plan in s.roots ::
      plan in s.locks && Holds(s, s.roots[plan].creator) && env.plans(s.roots[plan].creator) == plan
  }

  /** A root exists only under its plan's lock, in every run, exactly when removing a root cannot fail. */
  lemma RootsOnlyUnderLockIff(cleanupMayFail: bool)
    ensures RootsOnlyUnderLock(cleanupMayFail) <==> !cleanupMayFail
  {
    if cleanupMayFail {
      var env, events, s := RootOutlivesLock();
      assert Run(env, events) == Some(s) && "" in s.roots && "" !in s.locks;
    } else {
      forall env: Env, events, s: State, plan | env.cleanupMayFail == cleanupMayFail && Run(env, events) == Some(s) &&
                                                plan in s.roots
        ensures plan in s.locks && Holds(s, s.roots[plan].creator) && env.plans(s.roots[plan].creator) == plan
      {
        InvRun(env, events, s);
        assert RootIsHeld(env, s, plan);
      }
    }
  }

  lemma Then(env: Env, events: seq<Event>, s: State, p: Pid, a: Action, s': State)
    requires Run(env, events) == Some(s) && Step(env, s, p, a) == Some(s')
    ensures Run(env, events + [Event(p, a)]) == Some(s')
  {
    var longer := events + [Event(p, a)];
    assert longer[..|longer| - 1] == events;
  }

  // ----- what a process alone does -----

  // From `s` the process reaches `s'` by calls of its own.
  ghost predicate Goes(env: Env, past: seq<Event>, s: State, p: Pid, actions: seq<Action>, s': State) {
    Run(env, past) == Some(s) && Run(env, past + Events(p, actions)) == Some(s')
  }

  function Events(p: Pid, actions: seq<Action>): seq<Event> {
    seq(|actions|, i requires 0 <= i < |actions| => Event(p, actions[i]))
  }

  lemma GoesOn(env: Env, past: seq<Event>, s: State, p: Pid, actions: seq<Action>, t: State, a: Action, s': State)
    requires Goes(env, past, s, p, actions, t) && Step(env, t, p, a) == Some(s')
    ensures Goes(env, past, s, p, actions + [a], s')
  {
    Then(env, past + Events(p, actions), t, p, a, s');
    assert Events(p, actions + [a]) == Events(p, actions) + [Event(p, a)];
    assert past + Events(p, actions + [a]) == past + Events(p, actions) + [Event(p, a)];
  }

  lemma GoesNowhere(env: Env, past: seq<Event>, s: State, p: Pid)
    requires Run(env, past) == Some(s)
    ensures Goes(env, past, s, p, [], s)
  {
    assert past + Events(p, []) == past;
  }

  function Starts(hasRoot: bool, name: string, bytes: seq<int>): seq<Action> {
    if hasRoot then [Acquire, CreateRoot, WriteFile(name, bytes), Filled] else [Acquire, SkipRoot]
  }

  function Ends(hasRoot: bool, ok: bool): seq<Action> {
    if hasRoot then [RunEnds(ok), Remove, Unlock] else [RunEnds(ok), Unlock]
  }

  // The native process runs under the lock, over a root that holds what was copied.
  ghost predicate IsRunning(env: Env, s: State, p: Pid, name: string, bytes: seq<int>, t: State) {
    && t.procs == s.procs[p := Running(env.needsRoot(p))] && t.locks == s.locks + {env.plans(p)}
    && t.roots == if env.needsRoot(p) then s.roots[env.plans(p) := Root(p, map[name := bytes])] else s.roots
  }

  lemma StartsRunning(env: Env, past: seq<Event>, s: State, p: Pid, name: string, bytes: seq<int>) returns (t: State)
    requires Run(env, past) == Some(s) && p !in s.procs && env.plans(p) !in s.locks
    requires env.needsRoot(p) ==> env.plans(p) !in s.roots
    ensures Goes(env, past, s, p, Starts(env.needsRoot(p), name, bytes), t) && IsRunning(env, s, p, name, bytes, t)
  {
    hide Goes, Run;
    var plan := env.plans(p);
    GoesNowhere(env, past, s, p);
    t := Goto(s.(locks := s.locks + {plan}), p, Locked);
    GoesOn(env, past, s, p, [], s, Acquire, t);
    assert [] + [Acquire] == [Acquire];
    if env.needsRoot(p) {
      var t' := Goto(t.(roots := t.roots[plan := Root(p, map[])]), p, Filling);
      GoesOn(env, past, s, p, [Acquire], t, CreateRoot, t');
      assert [Acquire] + [CreateRoot] == [Acquire, CreateRoot];
      t := t'.(roots := t'.roots[plan := Root(p, map[][name := bytes])]);
      GoesOn(env, past, s, p, [Acquire, CreateRoot], t', WriteFile(name, bytes), t);
      assert [Acquire, CreateRoot] + [WriteFile(name, bytes)] == [Acquire, CreateRoot, WriteFile(name, bytes)];
      t' := Goto(t, p, Running(true));
      GoesOn(env, past, s, p, [Acquire, CreateRoot, WriteFile(name, bytes)], t, Filled, t');
      assert [Acquire, CreateRoot, WriteFile(name, bytes)] + [Filled] == Starts(true, name, bytes);
      t := t';
    } else {
      var t' := Goto(t, p, Running(false));
      GoesOn(env, past, s, p, [Acquire], t, SkipRoot, t');
      assert [Acquire] + [SkipRoot] == Starts(false, name, bytes);
      t := t';
    }
  }

  lemma RunningEnds(env: Env, past: seq<Event>, s: State, p: Pid, done: seq<Action>, t: State, ok: bool)
    returns (s': State)
    requires Goes(env, past, s, p, done, t) && p in t.procs && t.procs[p] == Running(env.needsRoot(p))
    ensures Goes(env, past, s, p, done + Ends(env.needsRoot(p), ok), s')
    ensures s'.procs == t.procs[p := Finished(ok)] && s'.locks == t.locks - {env.plans(p)}
    ensures s'.roots == if env.needsRoot(p) then t.roots - {env.plans(p)} else t.roots
  {
    hide Goes, Run;
    var plan, last := env.plans(p), done + [RunEnds(ok)];
    if env.needsRoot(p) {
      var t' := Goto(t, p, Cleaning(ok));
      GoesOn(env, past, s, p, done, t, RunEnds(ok), t');
      var t'' := Goto(t'.(roots := t'.roots - {plan}), p, Unlocking(ok));
      GoesOn(env, past, s, p, last, t', Remove, t'');
      s' := Goto(t''.(locks := t''.locks - {plan}), p, Finished(ok));
      GoesOn(env, past, s, p, last + [Remove], t'', Unlock, s');
      assert done + Ends(true, ok) == last + [Remove] + [Unlock];
    } else {
      var t' := Goto(t, p, Unlocking(ok));
      GoesOn(env, past, s, p, done, t, RunEnds(ok), t');
      s' := Goto(t'.(locks := t'.locks - {plan}), p, Finished(ok));
      GoesOn(env, past, s, p, last, t', Unlock, s');
      assert done + Ends(false, ok) == last + [Unlock];
    }
  }

  /** In any state in which its plan has neither lock nor root, a process whose calls all succeed takes the lock, runs
      the native process over a root that holds exactly what it copied, and finishes with the result of that process;
      lock and root are then gone, and nothing else has changed. */
  lemma ExecutionCanFinish(env: Env, past: seq<Event>, s: State, p: Pid, name: string, bytes: seq<int>, ok: bool)
    returns (t: State, s': State)
    requires Run(env, past) == Some(s) && p !in s.procs && env.plans(p) !in s.locks
    requires env.needsRoot(p) ==> env.plans(p) !in s.roots
    ensures Goes(env, past, s, p, Starts(env.needsRoot(p), name, bytes), t) && IsRunning(env, s, p, name, bytes, t)
    ensures Goes(env, past, s, p, Starts(env.needsRoot(p), name, bytes) + Ends(env.needsRoot(p), ok), s')
    ensures s' == State(s.locks, s.roots, s.procs[p := Finished(ok)])
  {
    t := StartsRunning(env, past, s, p, name, bytes);
    hide Goes, Run;
    s' := RunningEnds(env, past, s, p, Starts(env.needsRoot(p), name, bytes), t, ok);
    assert s'.locks == s.locks && s'.roots == s.roots;
    assert s'.procs == s.procs[p := Finished(ok)];
  }

  /** A process that finds its plan locked, or a root in its way, fails and changes nothing else. */
  lemma BusyPlanFails(env: Env, past: seq<Event>, s: State, p: Pid) returns (actions: seq<Action>, s': State)
    requires Run(env, past) == Some(s) && p !in s.procs
    requires env.plans(p) in s.locks || (env.needsRoot(p) && env.plans(p) in s.roots)
    ensures Goes(env, past, s, p, actions, s') && s' == State(s.locks, s.roots, s.procs[p := Finished(false)])
  {
    hide Goes, Run;
    var plan := env.plans(p);
    GoesNowhere(env, past, s, p);
    if plan in s.locks {
      s' := Goto(s, p, Finished(false));
      GoesOn(env, past, s, p, [], s, Acquire, s');
      actions := [] + [Acquire];
    } else {
      var t := Goto(s.(locks := s.locks + {plan}), p, Locked);
      GoesOn(env, past, s, p, [], s, Acquire, t);
      var t' := Goto(t, p, Unlocking(false));
      GoesOn(env, past, s, p, [] + [Acquire], t, CreateRoot, t');
      s' := Goto(t'.(locks := t'.locks - {plan}), p, Finished(false));
      GoesOn(env, past, s, p, [] + [Acquire] + [CreateRoot], t', Unlock, s');
      actions := [] + [Acquire] + [CreateRoot] + [Unlock];
      assert s'.procs == s.procs[p := Finished(false)] && s'.locks == s.locks;
    }
  }

  // ----- a failed cleanup -----

  function FaultyEnv(): Env {
    Env((_: Pid) => "", (_: Pid) => true, true)
  }

  lemma LockTaken() returns (events: seq<Event>, s: State)
    ensures Run(FaultyEnv(), events) == Some(s)
    ensures s == State({""}, map[], map[0 := Locked])
  {
    assert Run(FaultyEnv(), []) == Some(INIT);
    hide Run;
    var env := FaultyEnv();
    s := Goto(INIT.(locks := {} + {""}), 0, Locked);
    Then(env, [], INIT, 0, Acquire, s);
    events := [] + [Event(0, Acquire)];
  }

  lemma RollbackStarts() returns (events: seq<Event>, s: State)
    ensures Run(FaultyEnv(), events) == Some(s)
    ensures s == State({""}, map["" := Root(0, map[])], map[0 := RollingBack])
  {
    hide Run;
    var env := FaultyEnv();
    var e1, s1 := LockTaken();
    var s2 := Goto(s1.(roots := s1.roots["" := Root(0, map[])]), 0, Filling);
    Then(env, e1, s1, 0, CreateRoot, s2);
    var e2 := e1 + [Event(0, CreateRoot)];
    s := Goto(s2, 0, RollingBack);
    Then(env, e2, s2, 0, FillFails, s);
    events := e2 + [Event(0, FillFails)];
  }

  // A rollback that fails leaves the root, and the lock is dropped.
  lemma RootOutlivesLock() returns (env: Env, events: seq<Event>, s: State)
    ensures env.cleanupMayFail && Run(env, events) == Some(s) && "" in s.roots && "" !in s.locks
  {
    hide Run;
    env := FaultyEnv();
    var e3, s3 := RollbackStarts();
    var s4 := Goto(s3, 0, Unlocking(false));
    Then(env, e3, s3, 0, RemoveFault, s4);
    var e4 := e3 + [Event(0, RemoveFault)];
    s := Goto(s4.(locks := s4.locks - {""}), 0, Finished(false));
    Then(env, e4, s4, 0, Unlock, s);
    events := e4 + [Event(0, Unlock)];
  }
}
