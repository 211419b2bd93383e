/** Evidence handoffs: creating one, verifying it, and why a verified one stays verified. */
module Handoffs {
  import opened Wrappers
  import opened Bytes
  import opened Descriptors
  import opened StoreBridge
  import opened Workspace
  import opened WorkspaceCode
  import RecordPublication
  import Text

  function Occurrences(artifacts: seq<Descriptor>, id: string): seq<Descriptor> {
    if artifacts == [] then []
    else (if artifacts[0].artifactId == id then [artifacts[0]] else []) + Occurrences(artifacts[1..], id)
  }

  /** `verify_run_artifact`: the record of an artifact that the run captured exactly once, as the record says. */
  function RunArtifact(env: Env, s: Store, run: Run, id: string): Option<ArtifactRecord> {
    match LoadArtifact(env, s, id)
    case None => None
    case Some(record) =>
      var found := Occurrences(run.artifacts, id);
      if |found| == 1 && found[0] == record.artifact then Some(record) else None
  }

  /** `validate_evidence_handoff`. */
  predicate WellFormed(env: Env, h: Handoff) {
    && Text.IsPrefixedId(h.handoffId, "handoff_") && env.timestamp(h.createdAt)
    && Text.IsPrefixedId(h.plan.id, "plan_") && Text.IsSha256(h.plan.digest)
    && Text.IsPrefixedId(h.run.id, "run_") && Text.IsSha256(h.run.digest)
    && Text.IsPrefixedId(h.artifact.id, "artifact_") && Text.IsSha256(h.artifact.digest)
  }

  /** `verify_record_lineage`: run, plan and artifact of the handoff are stored with the digests it names. */
  predicate Lineage(env: Env, s: Store, h: Handoff) {
    && WellFormed(env, h)
    && LoadRun(env, s, h.run.id).Some?
    && (var run := LoadRun(env, s, h.run.id).value;
        && run.digest == h.run.digest
        && run.run.plan == h.plan
        && LoadPlanVerified(env, s, h.plan.id).Some?
        && LoadPlanVerified(env, s, h.plan.id).value.digest == h.plan.digest
        && RunArtifact(env, s, run.run, h.artifact.id).Some?
        && Text.Hex(RunArtifact(env, s, run.run, h.artifact.id).value.recordDigest) == h.artifact.digest)
  }

  function LoadHandoff(env: Env, s: Store, id: string): Option<HandoffRecord> {
    if Text.IsPrefixedId(id, "handoff_") && id in s.handoffs && s.handoffs[id].handoff.handoffId == id &&
       env.ofHandoff(s.handoffs[id].handoff) == s.handoffs[id].digest
    then Some(s.handoffs[id])
    else None
  }

  /** `verify`, with the digest that the consumer retained. */
  function Verified(env: Env, s: Store, id: string, digest: string): Option<HandoffRecord> {
    if Text.IsSha256(digest) && LoadHandoff(env, s, id).Some? && LoadHandoff(env, s, id).value.digest == digest &&
       Lineage(env, s, LoadHandoff(env, s, id).value.handoff)
    then LoadHandoff(env, s, id)
    else None
  }

  /** The handoff that `create` builds for an artifact of a run. */
  function Built(run: RunRecord, artifact: ArtifactRecord, id: string, now: string): Handoff {
    Handoff(id, now, run.run.plan, Ref(run.run.runId, run.digest),
            Ref(artifact.artifact.artifactId, Text.Hex(artifact.recordDigest)))
  }

  ghost predicate ValidEnv(env: Env) {
    (forall h: Handoff :: Text.IsSha256(env.ofHandoff(h))) && (forall d: Descriptor :: |env.ofArtifact(d)| == 32)
  }

  /** What `create` checks before it writes: the run is stored with the digest the caller names, its plan still
      verifies, and it captured the artifact exactly once. */
  predicate Eligible(env: Env, s: Store, runId: string, digest: string, artifactId: string, id: string, now: string) {
    && Text.IsSha256(digest)
    && LoadRun(env, s, runId).Some? && LoadRun(env, s, runId).value.digest == digest
    && LoadPlanVerified(env, s, LoadRun(env, s, runId).value.run.plan.id).Some?
    && RunArtifact(env, s, LoadRun(env, s, runId).value.run, artifactId).Some?
    && Text.IsPrefixedId(id, "handoff_") && env.timestamp(now)
  }

  // The record that `create` then writes.
  function CreatedRecord(env: Env, s: Store, runId: string, digest: string, artifactId: string, id: string,
                         now: string): HandoffRecord
    requires Eligible(env, s, runId, digest, artifactId, id, now)
  {
    var run := LoadRun(env, s, runId).value;
    var h := Built(run, RunArtifact(env, s, run.run, artifactId).value, id, now);
    HandoffRecord(h, env.ofHandoff(h))
  }

  lemma BuiltHasLineage(env: Env, s: Store, runId: string, artifactId: string, id: string, now: string)
    requires ValidEnv(env) && LoadRun(env, s, runId).Some?
    requires RunArtifact(env, s, LoadRun(env, s, runId).value.run, artifactId).Some?
    requires Text.IsSha256(LoadRun(env, s, runId).value.digest)
    ensures var run := LoadRun(env, s, runId).value;
      var artifact := RunArtifact(env, s, run.run, artifactId).value;
      Lineage(env, s, Built(run, artifact, id, now)) <==>
        Text.IsPrefixedId(id, "handoff_") && env.timestamp(now) && LoadPlanVerified(env, s, run.run.plan.id).Some?
  {
    var run := LoadRun(env, s, runId).value;
    var digest := RunArtifact(env, s, run.run, artifactId).value.recordDigest;
    assert digest == env.ofArtifact(s.artifacts[artifactId].artifact);
    Text.HexIsLower(digest);
    assert Text.IsSha256(Text.Hex(digest));
    assert LineageHolds(env, s, run.run);
    hide Text.IsPrefixedId, Text.IsSha256, Text.Hex, ReadVerified, InputsHold, ArtifactsHold, NativeAgreement.Accepted,
      Occurrences;
  }

  // ----- stability -----

  lemma LineageStays(env: Env, s: Store, t: Store, h: Handoff)
    requires Extends(s, t) && Lineage(env, s, h)
    ensures Lineage(env, t, h)
  {
    hide LoadRun, LoadPlanVerified, LoadArtifact, Extends, WellFormed, Occurrences;
    RunStays(env, s, t, h.run.id);
    PlanStays(env, s, t, h.plan.id);
    ArtifactStays(env, s, t, h.artifact.id);
  }

  lemma VerificationStays(env: Env, s: Store, t: Store, id: string, digest: string)
    requires Extends(s, t) && Verified(env, s, id, digest).Some?
    ensures Verified(env, t, id, digest) == Verified(env, s, id, digest)
  {
    LineageStays(env, s, t, s.handoffs[id].handoff);
    hide Lineage, Text.IsPrefixedId, Text.IsSha256;
  }

  /** On disk: whatever any processes write and whichever calls fail, a handoff that verifies with a retained digest
      verifies with it in every continuation. */
  lemma VerificationStaysOnDisk(env: Env, e: Protocols, d: Disk, d': Disk, id: string, digest: string)
    requires ReadsBack(e) && Reached(e, d) && Continues(e, d, d')
    requires Verified(env, StoreOf(e, d), id, digest).Some?
    ensures Verified(env, StoreOf(e, d'), id, digest) == Verified(env, StoreOf(e, d), id, digest)
  {
    StoreOnlyGrows(e, d, d');
    hide StoreOf, Verified, Extends, Reached, Continues;
    VerificationStays(env, StoreOf(e, d), StoreOf(e, d'), id, digest);
  }

  // Process `p` of the record protocol writes this handoff record, as text that reads back.
  ghost predicate Writes(e: Protocols, p: RecordPublication.Pid, record: HandoffRecord) {
    e.records.jobs(p).path == RecordPublication.Path(RecordPublication.Handoffs, record.handoff.handoffId) &&
    e.codecs.handoff(e.records.jobs(p).text) == Some(record)
  }

  // A write that returned success has put its record in the store.
  lemma WrittenIsStored(e: Protocols, d: Disk, p: RecordPublication.Pid, record: HandoffRecord)
    requires Reached(e, d) && Writes(e, p, record)
    requires p in d.records.procs && d.records.procs[p] == RecordPublication.Returned(true)
    ensures var id := record.handoff.handoffId;
      id in StoreOf(e, d).handoffs && StoreOf(e, d).handoffs[id] == record
  {
    var events :| RecordPublication.Run(e.records, RecordPublication.INIT, events) == Some(d.records);
    RecordPublication.SuccessIsInTheTable(e.records, events, d.records, p);
    hide RecordPublication.Table, RecordPublication.Run, Reached;
    assert RecordPublication.Path(RecordPublication.Handoffs, record.handoff.handoffId) in
      RecordPublication.Table(d.records);
  }

  lemma WithLineageVerifies(env: Env, s: Store, record: HandoffRecord)
    requires ValidEnv(env) && record.digest == env.ofHandoff(record.handoff) && Lineage(env, s, record.handoff)
    requires record.handoff.handoffId in s.handoffs && s.handoffs[record.handoff.handoffId] == record
    ensures Verified(env, s, record.handoff.handoffId, record.digest) == Some(record)
  {
    assert WellFormed(env, record.handoff);
    hide Lineage, Text.IsPrefixedId, Text.IsSha256;
  }

  // Writing a handoff whose lineage holds makes it verify.
  lemma WrittenVerifies(env: Env, s: Store, record: HandoffRecord)
    requires ValidEnv(env) && record.digest == env.ofHandoff(record.handoff) && Lineage(env, s, record.handoff)
    requires record.handoff.handoffId !in s.handoffs
    ensures var next := s.(handoffs := s.handoffs[record.handoff.handoffId := record]);
      Verified(env, next, record.handoff.handoffId, record.digest) == Some(record)
  {
    var next := s.(handoffs := s.handoffs[record.handoff.handoffId := record]);
    LineageStays(env, s, next, record.handoff);
    hide LoadRun, LoadPlanVerified, RunArtifact, Lineage, Text.IsPrefixedId, Text.IsSha256;
    WithLineageVerifies(env, next, record);
  }

  /** `create` against concurrent processes: its checks pass at `before`, its write returns success at `after`. Then the
      handoff verifies with the digest of its record at `after` and in every continuation `later`. */
  lemma CreatedKeepsVerifying(env: Env, e: Protocols, before: Disk, after: Disk, later: Disk, p: RecordPublication.Pid,
                              runId: string, digest: string, artifactId: string, id: string, now: string)
    requires ValidEnv(env) && ReadsBack(e) && Reached(e, before)
    requires Continues(e, before, after) && Continues(e, after, later)
    requires Eligible(env, StoreOf(e, before), runId, digest, artifactId, id, now)
    requires Writes(e, p, CreatedRecord(env, StoreOf(e, before), runId, digest, artifactId, id, now))
    requires p in after.records.procs && after.records.procs[p] == RecordPublication.Returned(true)
    ensures var record := CreatedRecord(env, StoreOf(e, before), runId, digest, artifactId, id, now);
      Verified(env, StoreOf(e, after), id, record.digest) == Some(record) &&
      Verified(env, StoreOf(e, later), id, record.digest) == Some(record)
  {
    var s := StoreOf(e, before);
    var record := CreatedRecord(env, s, runId, digest, artifactId, id, now);
    BuiltHasLineage(env, s, runId, artifactId, id, now);
    ContinuesIsTransitive(e, INIT, before, after);
    WrittenIsStored(e, after, p, record);
    StoreOnlyGrows(e, before, after);
    hide StoreOf, Extends, Continues, LoadRun, LoadPlanVerified, RunArtifact, Lineage, Text.IsPrefixedId, Text.IsSha256;
    LineageStays(env, s, StoreOf(e, after), record.handoff);
    WithLineageVerifies(env, StoreOf(e, after), record);
    VerificationStaysOnDisk(env, e, after, later, id, record.digest);
  }

  // ----- what a verified handoff is evidence of -----

  /** The artifact at position `k` is the one the handoff names, and its bytes are stored as the run captured them. */
  ghost predicate CapturedAt(env: Env, s: Store, run: Run, h: Handoff, k: nat) {
    && k < |run.artifacts|
    && (forall j | 0 <= j < |run.artifacts| :: run.artifacts[j].artifactId == h.artifact.id <==> j == k)
    && var d := run.artifacts[k];
       Text.Hex(env.ofArtifact(d)) == h.artifact.digest && d.digest in s.objects &&
       env.hash(s.objects[d.digest]) == d.digest && |s.objects[d.digest]| == d.byteLength
  }

  /** Run and plan are stored under the digests that the handoff names, the run did what the plan says, and it captured
      the named artifact exactly once, with bytes that are stored. */
  ghost predicate IsEvidence(env: Env, s: Store, h: Handoff) {
    && h.run.id in s.runs && h.plan.id in s.plans
    && var run, plan := s.runs[h.run.id].run, s.plans[h.plan.id].payload;
       && env.ofRun(run) == h.run.digest && env.ofPlan(plan) == h.plan.digest
       && run.runId == h.run.id && run.plan == h.plan && run.inputs == plan.inputs
       && exists k: nat :: CapturedAt(env, s, run, h, k)
  }

  lemma {:induction false} OneOccurrence(artifacts: seq<Descriptor>, id: string) returns (k: nat)
    requires |Occurrences(artifacts, id)| == 1
    ensures k < |artifacts| && artifacts[k] == Occurrences(artifacts, id)[0]
    ensures forall j | 0 <= j < |artifacts| :: artifacts[j].artifactId == id <==> j == k
  {
    if artifacts[0].artifactId == id {
      NoOccurrence(artifacts[1..], id);
      k := 0;
    } else {
      k := OneOccurrence(artifacts[1..], id);
      k := k + 1;
    }
    assert forall j | 1 <= j < |artifacts| :: artifacts[j] == artifacts[1..][j - 1];
  }

  lemma {:induction false} NoOccurrence(artifacts: seq<Descriptor>, id: string)
    requires Occurrences(artifacts, id) == []
    ensures forall j | 0 <= j < |artifacts| :: artifacts[j].artifactId != id
  {
    if artifacts != [] {
      NoOccurrence(artifacts[1..], id);
      assert forall j | 1 <= j < |artifacts| :: artifacts[j] == artifacts[1..][j - 1];
    }
  }

  lemma LineageIsEvidence(env: Env, s: Store, h: Handoff)
    requires Lineage(env, s, h)
    ensures IsEvidence(env, s, h)
  {
    var run := s.runs[h.run.id].run;
    assert LineageHolds(env, s, run);
    hide Text.IsPrefixedId, Text.IsSha256, Text.Hex, ValidDescriptor, WellFormed, InputsHold, ArtifactsHold,
      NativeAgreement.Accepted, Occurrences;
    var k := OneOccurrence(run.artifacts, h.artifact.id);
    assert CapturedAt(env, s, run, h, k);
  }

  // ----- what a retained digest pins -----

  /** No record or object of one store shares identifier and digest with a different one of the other. */
  ghost predicate NoCollisions(env: Env, s: Store, t: Store) {
    && (forall k | k in s.handoffs && k in t.handoffs ::
          env.ofHandoff(s.handoffs[k].handoff) == env.ofHandoff(t.handoffs[k].handoff) ==>
          s.handoffs[k].handoff == t.handoffs[k].handoff)
    && (forall k | k in s.runs && k in t.runs ::
          env.ofRun(s.runs[k].run) == env.ofRun(t.runs[k].run) ==> s.runs[k].run == t.runs[k].run)
    && (forall k | k in s.plans && k in t.plans ::
          env.ofPlan(s.plans[k].payload) == env.ofPlan(t.plans[k].payload) ==> s.plans[k].payload == t.plans[k].payload)
    && (forall k | k in s.artifacts && k in t.artifacts ::
          env.ofArtifact(s.artifacts[k].artifact) == env.ofArtifact(t.artifacts[k].artifact) ==>
          s.artifacts[k].artifact == t.artifacts[k].artifact)
    && (forall k | k in s.objects && k in t.objects ::
          env.hash(s.objects[k]) == env.hash(t.objects[k]) ==> s.objects[k] == t.objects[k])
  }

  /** Two workspaces of any history in which one retained digest verifies hold the same handoff, the same run, the same
      plan and the same artifact bytes, provided their records and objects do not collide. */
  lemma DigestPinsTheEvidence(env: Env, s: Store, t: Store, id: string, digest: string)
    requires NoCollisions(env, s, t)
    requires Verified(env, s, id, digest).Some? && Verified(env, t, id, digest).Some?
    ensures Verified(env, s, id, digest) == Verified(env, t, id, digest)
    ensures var h := Verified(env, s, id, digest).value.handoff;
      && LoadRun(env, s, h.run.id) == LoadRun(env, t, h.run.id)
      && LoadPlan(env, s, h.plan.id) == LoadPlan(env, t, h.plan.id)
      && BytesOf(env, s, h.artifact.id).Some? && BytesOf(env, s, h.artifact.id) == BytesOf(env, t, h.artifact.id)
  {
    hide Text.IsPrefixedId, Text.IsSha256, Text.Hex, WellFormed, ValidRun, InputsHold, Occurrences, ValidDescriptor;
    var h := s.handoffs[id].handoff;
    Text.HexIsInjective(s.artifacts[h.artifact.id].recordDigest, t.artifacts[h.artifact.id].recordDigest);
  }

  // ----- what can be handed off -----

  lemma {:induction false} OccursOnce(artifacts: seq<Descriptor>, k: nat)
    requires k < |artifacts|
    requires forall i, j | 0 <= i < j < |artifacts| :: artifacts[i].artifactId != artifacts[j].artifactId
    ensures Occurrences(artifacts, artifacts[k].artifactId) == [artifacts[k]]
  {
    if k == 0 {
      OccursNever(artifacts[1..], artifacts[0].artifactId);
    } else {
      OccursOnce(artifacts[1..], k - 1);
    }
  }

  lemma {:induction false} OccursNever(artifacts: seq<Descriptor>, id: string)
    requires forall j | 0 <= j < |artifacts| :: artifacts[j].artifactId != id
    ensures Occurrences(artifacts, id) == []
  {
    if artifacts != [] { OccursNever(artifacts[1..], id); }
  }

  /** Every artifact that a loaded run captured can be handed off, as long as the plan of the run still verifies. */
  lemma CapturedIsEligible(env: Env, s: Store, runId: string, k: nat, id: string, now: string)
    requires LoadRun(env, s, runId).Some? && LoadPlanVerified(env, s, s.runs[runId].run.plan.id).Some?
    requires k < |s.runs[runId].run.artifacts| && Text.IsSha256(s.runs[runId].digest)
    requires Text.IsPrefixedId(id, "handoff_") && env.timestamp(now)
    ensures Eligible(env, s, runId, s.runs[runId].digest, s.runs[runId].run.artifacts[k].artifactId, id, now)
  {
    hide LoadArtifact, RolesBacked, InputsHold, NativeAgreement.Accepted, LineageHolds, LoadPlanVerified, Occurrences,
      Text.IsPrefixedId, Text.IsSha256;
    var run := s.runs[runId].run;
    assert ArtifactsHold(env, s, env.manifest(run.inputs.tool), run.artifacts);
    assert run.artifacts[k] in run.artifacts && Committed(env, s, run.artifacts[k]);
    OccursOnce(run.artifacts, k);
  }

  // ----- the operations -----

  /** `validate_evidence_handoff`. */
  method ValidateHandoff(env: Env, h: Handoff) returns (ok: bool)
    ensures ok <==> WellFormed(env, h)
  {
    hide Text.IsPrefixedId, Text.IsSha256;
    if !Text.IsPrefixedId(h.handoffId, "handoff_") || !env.timestamp(h.createdAt) { return false; }
    if !Text.IsPrefixedId(h.plan.id, "plan_") || !Text.IsSha256(h.plan.digest) { return false; }
    if !Text.IsPrefixedId(h.run.id, "run_") || !Text.IsSha256(h.run.digest) { return false; }
    if !Text.IsPrefixedId(h.artifact.id, "artifact_") || !Text.IsSha256(h.artifact.digest) { return false; }
    return true;
  }

  class Registry {
    const env: Env
    var store: Store

    constructor (env: Env, store: Store)
      ensures this.env == env && this.store == store
    {
      this.env := env;
      this.store := store;
    }

    /** The iterator of `verify_run_artifact`: one match, and no second. */
    method VerifyRunArtifact(run: Run, id: string) returns (r: Option<ArtifactRecord>)
      ensures r == RunArtifact(env, store, run, id)
    {
      hide LoadArtifact;
      var artifact := ReadArtifact(env, store, id);
      if artifact.None? { return None; }
      var captured: Option<Descriptor> := None;
      for k := 0 to |run.artifacts|
        invariant Occurrences(run.artifacts[..k], id) == if captured.None? then [] else [captured.value]
      {
        assert run.artifacts[..k + 1] == run.artifacts[..k] + [run.artifacts[k]];
        OccurrencesSplit(run.artifacts[..k], [run.artifacts[k]], id);
        assert [run.artifacts[k]][1..] == [];
        if run.artifacts[k].artifactId == id {
          if captured.Some? {
            assert run.artifacts == run.artifacts[..k + 1] + run.artifacts[k + 1..];
            OccurrencesSplit(run.artifacts[..k + 1], run.artifacts[k + 1..], id);
            return None;
          }
          captured := Some(run.artifacts[k]);
        }
      }
      assert run.artifacts[..|run.artifacts|] == run.artifacts;
      if captured.None? || captured.value != artifact.value.artifact { return None; }
      return artifact;
    }

    /** `verify_record_lineage`. */
    method VerifyRecordLineage(h: Handoff) returns (ok: bool)
      ensures ok <==> Lineage(env, store, h)
      ensures ok ==> IsEvidence(env, store, h)
    {
      hide WellFormed, Occurrences, ValidRun, InputsHold, IsEvidence, Text.Hex;
      var wellFormed := ValidateHandoff(env, h);
      if !wellFormed { return false; }
      var run := ReadRun(env, store, h.run.id);
      if run.None? || run.value.digest != h.run.digest { return false; }
      if run.value.run.plan != h.plan { return false; }
      var plan := ReadPlanVerified(env, store, h.plan.id);
      if plan.None? || Ref(plan.value.planId, plan.value.digest) != h.plan { return false; }
      var artifact := VerifyRunArtifact(run.value.run, h.artifact.id);
      if artifact.None? || Text.Hex(artifact.value.recordDigest) != h.artifact.digest { return false; }
      LineageIsEvidence(env, store, h);
      return true;
    }

    /** `verify`: the stored record has the retained digest and its lineage holds. */
    method Verify(id: string, digest: string) returns (r: Option<HandoffRecord>)
      ensures r == Verified(env, store, id, digest)
      ensures r.Some? ==> r.value.handoff.handoffId == id && env.ofHandoff(r.value.handoff) == digest &&
                          IsEvidence(env, store, r.value.handoff)
    {
      hide Lineage, IsEvidence, Text.IsPrefixedId, Text.IsSha256;
      if !Text.IsSha256(digest) { return None; }
      if !Text.IsPrefixedId(id, "handoff_") || id !in store.handoffs { return None; }
      var record := store.handoffs[id];
      if record.handoff.handoffId != id || env.ofHandoff(record.handoff) != record.digest { return None; }
      if record.digest != digest { return None; }
      var ok := VerifyRecordLineage(record.handoff);
      return if ok then Some(record) else None;
    }

    /** `create`: it succeeds exactly if its checks pass and the identifier is unused, and then stores the record, which
        verifies. */
    method Create(runId: string, digest: string, artifactId: string, id: string, now: string)
      returns (r: Option<HandoffRecord>)
      requires ValidEnv(env)
      modifies this`store
      ensures r.Some? <==>
        Eligible(env, old(store), runId, digest, artifactId, id, now) && id !in old(store).handoffs
      ensures r.Some? ==>
        && r.value == CreatedRecord(env, old(store), runId, digest, artifactId, id, now)
        && store == old(store).(handoffs := old(store).handoffs[id := r.value])
        && r == Verified(env, store, id, r.value.digest)
        && IsEvidence(env, store, r.value.handoff)
      ensures r.None? ==> store == old(store)
    {
      if !Text.IsSha256(digest) { return None; }
      var run := ReadRun(env, store, runId);
      if run.None? || run.value.digest != digest { return None; }
      var artifact := VerifyRunArtifact(run.value.run, artifactId);
      if artifact.None? { return None; }
      var h := Handoff(id, now, run.value.run.plan, Ref(run.value.run.runId, run.value.digest),
                       Ref(artifact.value.artifact.artifactId, Text.Hex(artifact.value.recordDigest)));
      var record := HandoffRecord(h, env.ofHandoff(h));
      BuiltHasLineage(env, store, runId, artifactId, id, now);
      hide Lineage, LoadRun, LoadPlanVerified, RunArtifact, Text.IsPrefixedId, Text.IsSha256, Text.Hex, LoadHandoff,
        IsEvidence;
      var ok := VerifyRecordLineage(h);
      if !ok { return None; }
      if id in store.handoffs { return None; }
      WrittenVerifies(env, store, record);
      store := store.(handoffs := store.handoffs[id := record]);
      r := Verify(id, record.digest);
    }
  }

  lemma {:induction false} OccurrencesSplit(a: seq<Descriptor>, b: seq<Descriptor>, id: string)
    ensures Occurrences(a + b, id) == Occurrences(a, id) + Occurrences(b, id)
  {
    if a == [] {
      assert a + b == b;
    } else {
      assert (a + b)[1..] == a[1..] + b;
      OccurrencesSplit(a[1..], b, id);
    }
  }
}
