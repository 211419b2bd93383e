/** What a run that loads stands for in the files of the workspace, and that a run which `execute` records loads. */
module RunLaws {
  import opened Wrappers
  import opened Bytes
  import opened Descriptors
  import opened NativeAgreement
  import opened NativeObservations
  import opened Workspace
  import NativeText
  import Text
  import Utf8

  // ----- what a load finds on disk -----

  /** The record of the artifact is there with its digest, and an object with the digest and length it states. */
  ghost predicate StoredAs(env: Env, s: Store, d: Descriptor) {
    && d.artifactId in s.artifacts && s.artifacts[d.artifactId] == ArtifactRecord(env.ofArtifact(d), d)
    && d.digest in s.objects && env.hash(s.objects[d.digest]) == d.digest && |s.objects[d.digest]| == d.byteLength
  }

  /** An artifact loads exactly if it is stored, under a well-formed identifier and descriptor. */
  lemma CommittedIff(env: Env, s: Store, d: Descriptor)
    ensures Committed(env, s, d) <==>
            StoredAs(env, s, d) && ValidDescriptor(d) && Text.IsPrefixedId(d.artifactId, "artifact_")
    ensures Committed(env, s, d) ==> ReadVerified(env, s, d) == Some(s.objects[d.digest])
  {
    hide ValidDescriptor, Text.IsPrefixedId;
  }

  /** The staged executable has the recorded identity, and so has a stored copy of it. */
  ghost predicate ExecutableIsKept(env: Env, s: Store, t: ToolIdentity) {
    && t.path in s.staged && env.hash(s.staged[t.path]) == t.digest && |s.staged[t.path]| == t.size
    && exists d: Descriptor :: d.artifactId == t.snapshotId && d.digest == t.digest && d.byteLength == t.size &&
                               StoredAs(env, s, d)
  }

  /** The observation is in the stored bytes of the artifact it names: under its JSON pointer, or at its byte range. */
  ghost predicate IsInBytes(env: Env, s: Store, d: Descriptor, o: Observation, c: NativeObservations.Contract) {
    && o.source.FromArtifact? && o.source.artifactId == d.artifactId && c.role in d.meta.roles
    && d.digest in s.objects
    && var bytes := s.objects[d.digest];
       if c.format == "json" then env.json(bytes, o.source.locator.value) == Some(o.value)
       else o.value.String? && PointsAt(o.source.locator, bytes, Utf8.Encode(o.value.s))
  }

  // The run reports the observation of this contract, and one of its artifacts holds it.
  ghost predicate Shows(env: Env, s: Store, run: Run, c: NativeObservations.Contract)
    requires run.result.Reported?
  {
    exists d, o :: d in run.artifacts && o in run.result.observations && SameIdentity(o, c) &&
                   IsInBytes(env, s, d, o, c)
  }

  /** Run and plan agree, the executable and every captured artifact are there as described, and everything that is
      reported is in the captured bytes. */
  ghost predicate IsKept(env: Env, s: Store, run: Run) {
    && run.plan.id in s.plans && env.ofPlan(s.plans[run.plan.id].payload) == run.plan.digest
    && s.plans[run.plan.id].payload.inputs == run.inputs
    && ExecutableIsKept(env, s, run.inputs.identity)
    && (forall d | d in run.artifacts :: StoredAs(env, s, d))
    && (run.result.Reported? ==>
          && run.termination.Exited?
          && forall c | c in env.manifest(run.inputs.tool).observations :: Shows(env, s, run, c))
  }

  lemma ToolIsKept(env: Env, s: Store, tool: string, t: ToolIdentity)
    requires ToolHolds(env, s, tool, t)
    ensures ExecutableIsKept(env, s, t)
  {
    hide ValidDescriptor, Text.IsPrefixedId;
    var d := s.artifacts[t.snapshotId].artifact;
    assert StoredAs(env, s, d);
  }

  lemma ConfirmedIsShown(env: Env, s: Store, run: Run, c: NativeObservations.Contract)
    requires run.result.Reported?
    requires Confirmed(ReadersOf(env, s), env.manifest(run.inputs.tool), run.artifacts, run.result.observations, c)
    ensures Shows(env, s, run, c)
  {
    var r := ReadersOf(env, s);
    var o := Matching(run.result.observations, c)[0];
    MatchingIsIn(run.result.observations, c);
    assert o in Matching(run.result.observations, c);
    var sources := WithRole(run.artifacts, c.role);
    WithRoleIsIn(run.artifacts, c.role);
    HeadHasRole(run.artifacts, c.role);
    assert sources[0] in sources;
    var d := sources[0];
    hide WithRole, Select, Matching, Backed, ReadVerified, PointsAt;
    var bytes := r.bytes(d).value;
    LocatorPointsAtValue(r, c, bytes);
    VerifiedIsStored(env, s, d);
    assert IsInBytes(env, s, d, o, c);
  }

  lemma HeadHasRole(artifacts: seq<Descriptor>, role: string)
    requires WithRole(artifacts, role) != []
    ensures role in WithRole(artifacts, role)[0].meta.roles
  {
  }

  lemma VerifiedIsStored(env: Env, s: Store, d: Descriptor)
    requires ReadVerified(env, s, d).Some?
    ensures d.digest in s.objects && ReadVerified(env, s, d) == Some(s.objects[d.digest])
  {
  }

  /** A run that loads: it is stored under its identifier, and is kept. */
  lemma LoadedRunIsKept(env: Env, s: Store, id: string)
    requires LoadRun(env, s, id).Some?
    ensures id in s.runs && LoadRun(env, s, id) == Some(s.runs[id]) && s.runs[id].run.runId == id
    ensures IsKept(env, s, s.runs[id].run)
  {
    hide ToolHolds, QualificationBound, AdmissionBound, SubjectHolds, Committed, RolesBacked, Confirmed, Shows,
      StoredAs, ExecutableIsKept, Text.IsPrefixedId, Text.IsSha256, REASONS, DistinctIdentities;
    var run := s.runs[id].run;
    ToolIsKept(env, s, run.inputs.tool, run.inputs.identity);
    forall d | d in run.artifacts
      ensures StoredAs(env, s, d)
    {
      CommittedIff(env, s, d);
    }
    if run.result.Reported? {
      forall c | c in env.manifest(run.inputs.tool).observations
        ensures Shows(env, s, run, c)
      {
        ConfirmedIsShown(env, s, run, c);
      }
    }
  }

  // ----- recorded runs load -----

  /** The run that `execute` builds for a plan: the inputs of the plan, the streams it captured and what they show. */
  function ExecutedRun(env: Env, s: Store, plan: PlanRecord, runId: string, out: Option<Descriptor>,
                       err: Option<Descriptor>, t: Termination, intact: bool): Run
  {
    var inputs := plan.payload.inputs;
    var artifacts := Streams(out, err);
    Run(runId, Ref(plan.planId, plan.digest), inputs, artifacts, t,
        Executed(ReadersOf(env, s), env.manifest(inputs.tool), t, artifacts, intact))
  }

  ghost predicate CapturedTwo(env: Env, s: Store, out: Option<Descriptor>, err: Option<Descriptor>) {
    && CapturedAs(out, "native_stdout", "process_stdout") && CapturedAs(err, "native_stderr", "process_stderr")
    && (out.Some? ==> Committed(env, s, out.value)) && (err.Some? ==> Committed(env, s, err.value))
    && (out.Some? && err.Some? ==> out.value.artifactId != err.value.artifactId)
  }

  // The manifest captures both streams exactly, observes only streams that it captures, and each thing once.
  ghost predicate CapturesStreams(m: Manifest) {
    && UniquelyExact(m, "native_stdout") && UniquelyExact(m, "native_stderr")
    && DistinctContracts(m.observations) && forall c | c in m.observations :: UniquelyExact(m, c.role)
  }

  lemma StreamsHold(env: Env, s: Store, m: Manifest, out: Option<Descriptor>, err: Option<Descriptor>)
    requires CapturedTwo(env, s, out, err) && CapturesStreams(m)
    ensures ArtifactsHold(env, s, m, Streams(out, err))
  {
    hide Committed, Backed, UniquelyExact, WithRole;
    var artifacts := Streams(out, err);
    forall d, role | d in artifacts && role in d.meta.roles
      ensures Backed(m, artifacts, role)
    {
      assert role == d.meta.roles[0] && (role == "native_stdout" || role == "native_stderr");
      HasSomeWithRole(artifacts, d, role);
      StreamIsBacked(m, out, err, role);
    }
  }

  lemma {:induction false} HasSomeWithRole(artifacts: seq<Descriptor>, d: Descriptor, role: string)
    requires d in artifacts && role in d.meta.roles
    ensures WithRole(artifacts, role) != []
  {
    if artifacts[0] != d { HasSomeWithRole(artifacts[1..], d, role); }
  }

  /** A run that `execute` records for a verified plan, on streams it imported, loads from every later store that holds
      its record: the validation of a reload accepts whatever an execution records. */
  lemma ExecutedRunLoads(env: Env, s: Store, planId: string, runId: string, out: Option<Descriptor>,
                         err: Option<Descriptor>, t: Termination, intact: bool, later: Store)
    requires LoadPlanVerified(env, s, planId).Some? && Text.IsSha256(s.plans[planId].digest)
    requires CapturedTwo(env, s, out, err) && CapturesStreams(env.manifest(s.plans[planId].payload.inputs.tool))
    requires Text.IsPrefixedId(runId, "run_")
    requires env.runOk(ExecutedRun(env, s, s.plans[planId], runId, out, err, t, intact))
    requires Extends(s, later) && runId in later.runs
    requires var run := ExecutedRun(env, s, s.plans[planId], runId, out, err, t, intact);
      later.runs[runId] == RunRecord(run, env.ofRun(run))
    ensures LoadRun(env, later, runId) == Some(later.runs[runId])
  {
    PlanIsStored(env, s, planId);
    hide InputsHold, Text.IsPrefixedId, Text.IsSha256, Accepted, ArtifactsHold, CapturesStreams, Executed, CapturedTwo,
      Streams, LoadPlan, LoadPlanVerified, LoadRun, ReadersOf, Extends;
    var run := later.runs[runId].run;
    var m := env.manifest(run.inputs.tool);
    StreamsHold(env, s, m, out, err);
    RecordedIsAccepted(env, s, m, out, err, t, intact);
    assert LineageHolds(env, s, run);
    hide LineageHolds;
    ValidRunIsWritten(env, s, later, later.runs[runId]);
  }

  lemma PlanIsStored(env: Env, s: Store, id: string)
    requires LoadPlanVerified(env, s, id).Some?
    ensures LoadPlan(env, s, id) == Some(s.plans[id]) && s.plans[id].planId == id
    ensures InputsHold(env, s, s.plans[id].payload.inputs)
  {
    hide InputsHold;
  }

  // A run that validates before it is written loads once it is.
  lemma ValidRunIsWritten(env: Env, s: Store, next: Store, record: RunRecord)
    requires var run := record.run;
      && Text.IsPrefixedId(run.runId, "run_") && env.runOk(run) && env.ofRun(run) == record.digest
      && InputsHold(env, s, run.inputs) && LineageHolds(env, s, run)
      && ArtifactsHold(env, s, env.manifest(run.inputs.tool), run.artifacts)
      && Accepted(ReadersOf(env, s), env.manifest(run.inputs.tool), run.termination, run.artifacts, run.result)
    requires Extends(s, next) && record.run.runId in next.runs && next.runs[record.run.runId] == record
    ensures LoadRun(env, next, record.run.runId) == Some(record)
  {
    hide InputsHold, Text.IsPrefixedId, Text.IsSha256, Accepted, ArtifactsHold, LoadPlan, Extends, ReadersOf;
    var run := record.run;
    var m := env.manifest(run.inputs.tool);
    InputsStay(env, s, next, run.inputs);
    PlanStays(env, s, next, run.plan.id);
    ArtifactsStay(env, s, next, m, run.artifacts);
    SameReaders(env, s, next);
    AcceptanceStays(ReadersOf(env, s), ReadersOf(env, next), m, run.termination, run.artifacts, run.result);
  }

  lemma SameReaders(env: Env, s: Store, t: Store)
    ensures ReadersOf(env, s).json == ReadersOf(env, t).json
  {
  }

  lemma RecordedIsAccepted(env: Env, s: Store, m: Manifest, out: Option<Descriptor>, err: Option<Descriptor>,
                           t: Termination, intact: bool)
    requires CapturedTwo(env, s, out, err) && CapturesStreams(m)
    ensures Accepted(ReadersOf(env, s), m, t, Streams(out, err),
                     Executed(ReadersOf(env, s), m, t, Streams(out, err), intact))
  {
    hide Accepted, Executed, Streams, UniquelyExact, CapturedAs, Committed, DistinctContracts;
    ExecutedIsAccepted(ReadersOf(env, s), m, t, out, err, intact);
  }
}
