/** What a load gives back after an import returned success, in every interleaving: it needs no unlink to succeed
    but those behind the object name of the digest, and those only until the import has returned. */
module StoreLoads {
  import opened Wrappers
  import opened Bytes
  import opened ContentStore
  import opened StoreQuietRuns
  import opened StoreReadable
  import opened StoreRefinement
  import opened StoreSafety
  import Descriptors

  predicate Agrees(env: Env, p: Pid)
    requires env.jobs(p).Import?
  {
    Descriptors.OriginAgrees(env.jobs(p).meta)
  }

  // A loader of the id that `p` imported is on the way to exactly that import.
  ghost predicate Tracks(env: Env, s: State, p: Pid, pc: Pc)
    requires env.jobs(p).Import?
  {
    match pc
    case Resolving => true
    case ReadingRecord(ino) => ino == Inode(p, Rec)
    case Opening(d, _) => d == DescriptorFor(env, p) && Agrees(env, p)
    case Inspecting(d, _, ino) => d == DescriptorFor(env, p) && Agrees(env, p) && Denotes(s, ObjectName(d.digest), ino)
    case Streaming(d, _, ino, _) => d == DescriptorFor(env, p) && Agrees(env, p) &&
        Denotes(s, ObjectName(d.digest), ino)
    case Loaded(d, bytes) => d == DescriptorFor(env, p) && Agrees(env, p) && bytes == env.jobs(p).bytes
    case Refused => !Agrees(env, p)
    case _ => false
  }

  // The import of `p` can be read: its own record and its own bytes.
  ghost predicate Held(env: Env, s: State, p: Pid)
    requires env.jobs(p).Import?
  {
    HasBoth(env, s, p) && s.files[s.names[Dest(env, p, Obj)]] == env.jobs(p).bytes
  }

  ghost predicate Loading(env: Env, s: State, p: Pid, q: Pid) {
    && env.jobs(p).Import? && env.jobs(q) == Load(env.jobs(p).artifactId)
    && Held(env, s, p) && Descriptors.ValidCapture(env.jobs(p).meta)
    && (q in s.procs ==> LoadOk(env, s, q, s.procs[q]) && Tracks(env, s, p, s.procs[q]))
  }

  lemma OwnStepTracks(env: Env, s: State, p: Pid, q: Pid, pc: Pc, a: Action, pc': Pc)
    requires ValidEnv(env) && Loading(env, s, p, q) && LoadOk(env, s, q, pc) && Tracks(env, s, p, pc)
    requires !a.Fault? && LoadStep(env, s, q, pc, a) == Some(pc')
    ensures Tracks(env, s, p, pc')
  {
    match pc
    case ReadingRecord(_) =>
      assert env.parseRecord(Content(env, p, Rec)) == Some(RecordFor(env, DescriptorFor(env, p)));
    case Streaming(_, _, ino, acc) => assert |acc| == |s.files[ino]| ==> acc == s.files[ino];
    case _ =>
  }

  lemma HeldStays(env: Env, s: State, p: Pid, a: Action, s': State, q: Pid)
    requires ValidEnv(env) && Inv(env, s) && Step(env, s, q, a) == Some(s') && env.jobs(p).Import? && Held(env, s, p)
    ensures Held(env, s', p) && s'.names[Dest(env, p, Obj)] == s.names[Dest(env, p, Obj)]
  {
    hide Step, Inv, Readable, ValidEnv;
    ReadableStays(env, s, q, a, s', Dest(env, p, Obj));
    ReadableStays(env, s, q, a, s', Dest(env, p, Rec));
  }

  // Steps of other processes, and the loader's own, keep a load on its way.
  lemma LoadingStep(env: Env, s: State, p: Pid, q: Pid, e: Event, s': State)
    requires ValidEnv(env) && Inv(env, s) && Loading(env, s, p, q)
    requires Step(env, s, e.p, e.action) == Some(s') && !(e.p == q && e.action.Fault?)
    ensures Loading(env, s', p, q)
  {
    InvStep(env, s, e.p, e.action, s');
    HeldStays(env, s, p, e.action, s', e.p);
    if q in s'.procs {
      assert ProcOk(env, s', q);
      if e.p == q && q in s.procs { OwnStepTracks(env, s, p, q, s.procs[q], e.action, s'.procs[q]); }
    }
  }

  ghost predicate NoFaultOf(events: seq<Event>, q: Pid) {
    forall e | e in events :: !(e.p == q && e.action.Fault?)
  }

  lemma {:induction false} LoadingRun(env: Env, s: State, p: Pid, q: Pid, events: seq<Event>, s': State)
    requires ValidEnv(env) && Inv(env, s) && Loading(env, s, p, q)
    requires Run(env, s, events) == Some(s') && NoFaultOf(events, q)
    ensures Loading(env, s', p, q)
  {
    if events != [] {
      var e := events[|events| - 1];
      var before := Run(env, s, events[..|events| - 1]).value;
      LoadingRun(env, s, p, q, events[..|events| - 1], before);
      InvRun(env, s, events[..|events| - 1], before);
      LoadingStep(env, before, p, q, e, s');
    }
  }

  lemma SucceededIsLoadable(env: Env, s: State, p: Pid, q: Pid)
    requires ValidEnv(env) && CollisionFree(env) && Inv(env, s) && Succeeded(env, s, p) && HasBoth(env, s, p)
    requires env.jobs(q) == Load(env.jobs(p).artifactId) && q !in s.procs
    ensures Loading(env, s, p, q)
  {
    assert ProcOk(env, s, p);
    assert NameOk(env, s, Dest(env, p, Obj));
    var winner := s.names[Dest(env, p, Obj)].p;
    assert DigestOf(env, winner) == DigestOf(env, p);
  }

  ghost predicate LoadOutcome(env: Env, p: Pid, pc: Pc)
    requires env.jobs(p).Import?
  {
    && (pc.Loaded? ==> Agrees(env, p) && pc == Loaded(DescriptorFor(env, p), env.jobs(p).bytes))
    && (pc.Refused? ==> !Agrees(env, p))
  }

  lemma TrackedOutcome(env: Env, s: State, p: Pid, q: Pid)
    requires Loading(env, s, p, q) && q in s.procs
    ensures LoadOutcome(env, p, s.procs[q])
  {
    hide Held, LoadOk;
  }

  /** A load that begins after an import of the same id returned success, and whose own calls do not fail, gives back
      exactly the imported descriptor and bytes; it refuses only what an import does not check, a capture mode that
      disagrees with the origin. Before the import returned no unlink behind the object name of its digest may have
      failed; afterwards any unlink may fail. */
  lemma LoadReturnsTheImport(env: Env, events: seq<Event>, s: State, p: Pid, q: Pid, more: seq<Event>, s': State)
    requires IsRun(env, events, s) && CollisionFree(env) && Succeeded(env, s, p)
    requires Quiet(env, INIT, events, ObjectName(DigestOf(env, p)))
    requires Run(env, s, more) == Some(s') && NoFaultOf(more, q)
    requires env.jobs(q) == Load(env.jobs(p).artifactId) && q !in s.procs && q in s'.procs
    ensures LoadOutcome(env, p, s'.procs[q])
  {
    hide Step, Run, Inv, Quiet, CollisionFree, HasBoth, Loading, LoadOutcome, NoFaultOf;
    RunIsSound(env, events, s);
    SucceededHasBoth(env, events, s, p);
    SucceededIsLoadable(env, s, p, q);
    LoadingRun(env, s, p, q, more, s');
    TrackedOutcome(env, s', p, q);
  }

  // ----- such a load can always finish -----

  // Bounds the steps a load still has to take over an object of `length` bytes.
  function Remaining(pc: Pc, length: nat): int {
    match pc
    case Resolving => 2 * length + 9
    case ReadingRecord(_) => 2 * length + 8
    case Opening(_, pass) => if pass == 1 then 2 * length + 7 else length + 4
    case Inspecting(_, pass, _) => if pass == 1 then 2 * length + 6 else length + 3
    case Streaming(_, pass, _, acc) => if pass == 1 then 2 * length + 5 - |acc| else length + 2 - |acc|
    case _ => 0
  }

  // The call a loader is about to make, when none fails.
  function NextCall(pc: Pc, length: nat): Action {
    match pc
    case Resolving => Open
    case ReadingRecord(_) => CheckLinks
    case Opening(_, _) => Open
    case Inspecting(_, _, _) => CheckLinks
    case Streaming(_, _, _, acc) => if |acc| < length then ReadChunk(length - |acc|) else Finish
    case _ => Fault
  }

  lemma LoadProgress(env: Env, s: State, p: Pid, q: Pid, pc: Pc)
    requires ValidEnv(env) && Loading(env, s, p, q) && LoadOk(env, s, q, pc) && Tracks(env, s, p, pc)
    requires !pc.Loaded? && !pc.Refused?
    ensures var length := |env.jobs(p).bytes|;
      var next := LoadStep(env, s, q, pc, NextCall(pc, length));
      next.Some? && 0 <= Remaining(next.value, length) < Remaining(pc, length)
  {
  }

  lemma {:induction false} RunPrepends(env: Env, s: State, e: Event, s1: State, rest: seq<Event>)
    requires Step(env, s, e.p, e.action) == Some(s1)
    ensures Run(env, s, [e] + rest) == Run(env, s1, rest)
  {
    var events := [e] + rest;
    if rest == [] {
      assert events[..|events| - 1] == [];
    } else {
      assert events[..|events| - 1] == [e] + rest[..|rest| - 1];
      RunPrepends(env, s, e, s1, rest[..|rest| - 1]);
    }
  }

  // The next call of the load succeeds and brings it nearer to its end.
  lemma SoloCall(env: Env, s: State, p: Pid, q: Pid) returns (e: Event, s1: State)
    requires ValidEnv(env) && Loading(env, s, p, q)
    requires q in s.procs && !s.procs[q].Loaded? && !s.procs[q].Refused?
    ensures Step(env, s, e.p, e.action) == Some(s1) && e.p == q && !e.action.Fault? && q in s1.procs
    ensures var length := |env.jobs(p).bytes|; 0 <= Remaining(s1.procs[q], length) < Remaining(s.procs[q], length)
  {
    var pc, length := s.procs[q], |env.jobs(p).bytes|;
    LoadProgress(env, s, p, q, pc);
    e := Event(q, NextCall(pc, length));
    NextCallIsNoStart(pc, length);
    var next := LoadStep(env, s, q, pc, e.action).value;
    s1 := Goto(s, q, next);
    hide LoadStep, ImportStep, NextCall, Remaining, Loading, Held;
  }

  lemma NextCallIsNoStart(pc: Pc, length: nat)
    ensures !NextCall(pc, length).Start?
    ensures pc.Resolving? || pc.ReadingRecord? || pc.Opening? || pc.Inspecting? || pc.Streaming? ==>
              !NextCall(pc, length).Fault?
  {
  }

  lemma SoloStep(env: Env, s: State, p: Pid, q: Pid) returns (e: Event, s1: State)
    requires ValidEnv(env) && Inv(env, s) && Loading(env, s, p, q)
    requires q in s.procs && !s.procs[q].Loaded? && !s.procs[q].Refused?
    ensures Step(env, s, e.p, e.action) == Some(s1) && !e.action.Fault?
    ensures Inv(env, s1) && Loading(env, s1, p, q) && q in s1.procs
    ensures var length := |env.jobs(p).bytes|; 0 <= Remaining(s1.procs[q], length) < Remaining(s.procs[q], length)
  {
    e, s1 := SoloCall(env, s, p, q);
    assert env.jobs(p).Import?;
    hide Step, Inv, Loading, Remaining;
    LoadingStep(env, s, p, q, e, s1);
    InvStep(env, s, e.p, e.action, s1);
  }

  // A load that has ended gave back the import, or refused it for its capture mode.
  lemma EndedLoad(env: Env, s: State, p: Pid, q: Pid)
    requires env.jobs(p).Import? && Loading(env, s, p, q) && q in s.procs && (s.procs[q].Loaded? || s.procs[q].Refused?)
    ensures s.procs[q] == if Agrees(env, p) then Loaded(DescriptorFor(env, p), env.jobs(p).bytes) else Refused
  {
    hide Held;
  }

  /** From any point of such a load there is a continuation in which it finishes. */
  lemma {:induction false} LoadCanFinish(env: Env, s: State, p: Pid, q: Pid) returns (events: seq<Event>, s': State)
    requires ValidEnv(env) && Inv(env, s) && Loading(env, s, p, q)
    requires q in s.procs
    ensures NoFaultOf(events, q) && Run(env, s, events) == Some(s') && q in s'.procs
    ensures s'.procs[q] == if Agrees(env, p) then Loaded(DescriptorFor(env, p), env.jobs(p).bytes) else Refused
    decreases Remaining(s.procs[q], |env.jobs(p).bytes|)
  {
    assert env.jobs(p).Import?;
    RunsNothing(env, s, q);
    hide Step, Inv, Loading, Remaining, ValidEnv, Run, NoFaultOf, DescriptorFor, Agrees;
    if s.procs[q].Loaded? || s.procs[q].Refused? {
      events, s' := [], s;
      EndedLoad(env, s, p, q);
    } else {
      var e, s1 := SoloStep(env, s, p, q);
      var rest;
      rest, s' := LoadCanFinish(env, s1, p, q);
      events := [e] + rest;
      RunPrepends(env, s, e, s1, rest);
      NoFaultPrepends(e, rest, q);
    }
  }

  lemma RunsNothing(env: Env, s: State, q: Pid)
    ensures Run(env, s, []) == Some(s) && NoFaultOf([], q)
  {
  }

  lemma NoFaultPrepends(e: Event, rest: seq<Event>, q: Pid)
    requires !e.action.Fault? && NoFaultOf(rest, q)
    ensures NoFaultOf([e] + rest, q)
  {
  }
}
