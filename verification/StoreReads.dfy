/** What an import leaves and what a load returns is in the store: while no unlink behind the two names of a load
    fails, its calls, spread over time and interleaved with everybody else's, read what one snapshot of the disk
    shows. */
module StoreReads {
  import opened Wrappers
  import opened Bytes
  import opened ContentStore
  import opened StoreBridge
  import opened StoreQuietRuns
  import opened StoreReadable
  import opened StoreRefinement
  import opened StoreSafety
  import Descriptors

  /** The record file of the descriptor's identifier can be read and describes it so. */
  ghost predicate Shows(env: ContentStore.Env, s: State, d: Descriptor) {
    var n := RecordName(d.artifactId);
    Readable(s, n) && env.parseRecord(s.files[s.names[n]]).Some? &&
    env.parseRecord(s.files[s.names[n]]).value == RecordFor(env, d)
  }

  // What the disk shows to a loader of `id` at `pc`. Of objects it speaks only if their digest is `digest`.
  ghost predicate ReadsOk(env: ContentStore.Env, s: State, id: string, digest: Digest, pc: Pc) {
    match pc
    case ReadingRecord(ino) => Denotes(s, RecordName(id), ino)
    case Opening(d, _) => d.artifactId == id && Shows(env, s, d)
    case Inspecting(d, _, ino) =>
      d.artifactId == id && Shows(env, s, d) && (d.digest == digest ==> Denotes(s, ObjectName(digest), ino))
    case Streaming(d, _, ino, _) =>
      d.artifactId == id && Shows(env, s, d) &&
      (d.digest == digest ==> Denotes(s, ObjectName(digest), ino) && Readable(s, ObjectName(digest)))
    case Loaded(d, bytes) =>
      d.artifactId == id && Shows(env, s, d) &&
      (d.digest == digest ==> Readable(s, ObjectName(digest)) && s.files[s.names[ObjectName(digest)]] == bytes)
    case _ => true
  }

  // No process is about to roll back either name.
  ghost predicate BothStable(env: ContentStore.Env, s: State, id: string, digest: Digest) {
    NameStable(env, s, RecordName(id)) && NameStable(env, s, ObjectName(digest))
  }

  ghost predicate Reading(env: ContentStore.Env, s: State, p: Pid, digest: Digest) {
    && env.jobs(p).Load? && BothStable(env, s, env.jobs(p).artifactId, digest)
    && (p in s.procs ==> ReadsOk(env, s, env.jobs(p).artifactId, digest, s.procs[p]))
  }

  lemma ReadsAdvance(env: ContentStore.Env, s: State, p: Pid, digest: Digest, pc: Pc, a: Action, pc': Pc)
    requires env.jobs(p).Load? && LoadStep(env, s, p, pc, a) == Some(pc')
    requires LoadOk(env, s, p, pc) && ReadsOk(env, s, env.jobs(p).artifactId, digest, pc)
    ensures ReadsOk(env, s, env.jobs(p).artifactId, digest, pc')
  {
    hide RecordRead, Descriptors.ValidDescriptor, LinkCount;
  }

  lemma ShowsStays(env: ContentStore.Env, s: State, p: Pid, a: Action, s': State, d: Descriptor)
    requires ContentStore.ValidEnv(env) && Inv(env, s) && Step(env, s, p, a) == Some(s') && Shows(env, s, d)
    ensures Shows(env, s', d)
  {
    hide Step, Inv, Readable, ContentStore.ValidEnv;
    ReadableStays(env, s, p, a, s', RecordName(d.artifactId));
  }

  lemma ReadsStay(env: ContentStore.Env, s: State, p: Pid, a: Action, s': State, id: string, digest: Digest, pc: Pc)
    requires ContentStore.ValidEnv(env) && BothStable(env, s, id, digest)
    requires Step(env, s, p, a) == Some(s') && Guarantee(env, s, s', p) && ReadsOk(env, s, id, digest, pc)
    ensures ReadsOk(env, s', id, digest, pc)
  {
    assert Inv(env, s);
    hide Step, NameStable, Inv, Readable, ContentStore.ValidEnv, Guarantee, Shows;
    var n := ObjectName(digest);
    if pc.ReadingRecord? { NameStays(env, s, s', p, RecordName(id)); }
    if pc.Opening? || pc.Inspecting? || pc.Streaming? || pc.Loaded? { ShowsStays(env, s, p, a, s', pc.desc); }
    if (pc.Inspecting? || pc.Streaming?) && pc.desc.digest == digest { NameStays(env, s, s', p, n); }
    if (pc.Streaming? || pc.Loaded?) && pc.desc.digest == digest { ReadableStays(env, s, p, a, s', n); }
  }

  lemma LoaderSteps(env: ContentStore.Env, s: State, p: Pid, a: Action, s': State)
    requires Step(env, s, p, a) == Some(s') && env.jobs(p).Load?
    ensures if p in s.procs then p in s'.procs && LoadStep(env, s, p, s.procs[p], a) == Some(s'.procs[p])
            else p in s'.procs && s'.procs[p] == Resolving
  {
  }

  lemma ReadingStep(env: ContentStore.Env, s: State, q: Pid, a: Action, s': State, p: Pid, digest: Digest)
    requires ContentStore.ValidEnv(env) && Reading(env, s, p, digest) && Step(env, s, q, a) == Some(s')
    requires !IsFaultOf(env, s, Event(q, a), RecordName(env.jobs(p).artifactId))
    requires !IsFaultOf(env, s, Event(q, a), ObjectName(digest))
    ensures Reading(env, s', p, digest)
  {
    var id := env.jobs(p).artifactId;
    NameStableStep(env, s, q, a, s', RecordName(id));
    NameStableStep(env, s, q, a, s', ObjectName(digest));
    if q == p { LoaderSteps(env, s, p, a, s'); }
    hide Step, NameStable, LoadStep, LoadOk, ImportOk, ContentStore.ValidEnv, IsFaultOf;
    if p in s.procs {
      if q == p { ActorReads(env, s, p, a, s', digest); } else { assert s'.procs[p] == s.procs[p]; }
      hide ReadsOk;
      ReadsStay(env, s, q, a, s', id, digest, s'.procs[p]);
    }
  }

  lemma ActorReads(env: ContentStore.Env, s: State, p: Pid, a: Action, s': State, digest: Digest)
    requires Reading(env, s, p, digest) && p in s.procs && p in s'.procs
    requires LoadStep(env, s, p, s.procs[p], a) == Some(s'.procs[p])
    ensures ReadsOk(env, s, env.jobs(p).artifactId, digest, s'.procs[p])
  {
    hide LoadStep, LoadOk, ReadsOk, ImportOk;
    assert ProcOk(env, s, p);
    ReadsAdvance(env, s, p, digest, s.procs[p], a, s'.procs[p]);
  }

  lemma {:induction false} ReadingRun(env: ContentStore.Env, events: seq<Event>, s: State, p: Pid, digest: Digest)
    requires IsRun(env, events, s) && env.jobs(p).Load?
    requires Quiet(env, ContentStore.INIT, events, RecordName(env.jobs(p).artifactId))
    requires Quiet(env, ContentStore.INIT, events, ObjectName(digest))
    ensures Reading(env, s, p, digest)
  {
    hide Step, Reading, Quiet, ContentStore.ValidEnv;
    if events == [] {
      InitReads(env, p, digest);
    } else {
      var e, front := events[|events| - 1], events[..|events| - 1];
      var before := Run(env, ContentStore.INIT, front).value;
      QuietFront(env, ContentStore.INIT, events, RecordName(env.jobs(p).artifactId));
      QuietFront(env, ContentStore.INIT, events, ObjectName(digest));
      ReadingRun(env, front, before, p, digest);
      ReadingStep(env, before, e.p, e.action, s, p, digest);
    }
  }

  lemma InitReads(env: ContentStore.Env, p: Pid, digest: Digest)
    requires env.jobs(p).Load?
    ensures Reading(env, ContentStore.INIT, p, digest)
  {
    InitIsNameStable(env, RecordName(env.jobs(p).artifactId));
    InitIsNameStable(env, ObjectName(digest));
    hide NameStable;
  }

  // ----- main results -----

  ghost predicate HasLoaded(env: ContentStore.Env, s: State, p: Pid) {
    env.jobs(p).Load? && p in s.procs && s.procs[p].Loaded?
  }

  // What a load returned is what the disk shows under its identifier.
  ghost predicate ReadFromTheStore(env: ContentStore.Env, s: State, p: Pid)
    requires HasLoaded(env, s, p)
  {
    var id, d := env.jobs(p).artifactId, s.procs[p].desc;
    id in ArtifactsOf(env, s) && ArtifactsOf(env, s)[id] == RecordFor(env, d) &&
    d.digest in ObjectsOf(s) && ObjectsOf(s)[d.digest] == s.procs[p].bytes
  }

  /** The descriptor and the bytes that a load returned are those of the store, in every run in which no unlink
      behind the name of its record or of its object fails; by `ArtifactsOnlyGrow` they stay so. */
  lemma LoadedIsInTheStore(env: ContentStore.Env, events: seq<Event>, s: State, p: Pid)
    requires IsRun(env, events, s) && HasLoaded(env, s, p)
    requires Quiet(env, ContentStore.INIT, events, RecordName(env.jobs(p).artifactId))
    requires Quiet(env, ContentStore.INIT, events, ObjectName(s.procs[p].desc.digest))
    ensures ReadFromTheStore(env, s, p)
  {
    ReadingRun(env, events, s, p, s.procs[p].desc.digest);
    hide Run, Quiet, NameStable, LinkCount, ContentStore.ValidEnv;
    var d := s.procs[p].desc;
    assert RecordName(d.artifactId) in s.names && ObjectName(d.digest) in s.names;
  }

  /** An import that returned success is in the store, in every run in which no unlink behind the object name of its
      digest fails: its own record under its identifier, and content of its digest. */
  lemma ImportIsInTheStore(env: ContentStore.Env, events: seq<Event>, s: State, p: Pid)
    requires IsRun(env, events, s) && Succeeded(env, s, p)
    requires Quiet(env, ContentStore.INIT, events, ObjectName(DigestOf(env, p)))
    ensures var id, digest := env.jobs(p).artifactId, DigestOf(env, p);
      && id in ArtifactsOf(env, s) && ArtifactsOf(env, s)[id] == RecordFor(env, DescriptorFor(env, p))
      && digest in ObjectsOf(s) && env.hash(ObjectsOf(s)[digest]) == digest
  {
    SucceededHasBoth(env, events, s, p);
    hide Run, Quiet, LinkCount;
    assert RecordName(env.jobs(p).artifactId) in s.names && ObjectName(DigestOf(env, p)) in s.names;
  }
}
