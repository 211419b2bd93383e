/** The validation of plans and runs as its functions and loops run, each on the files of a workspace at one moment. */
module WorkspaceCode {
  import opened Wrappers
  import opened Bytes
  import opened Descriptors
  import opened NativeAgreement
  import opened NativeObservations
  import opened Workspace
  import AdmissionPayload
  import AdmissionRegistry
  import AdmissionTermination
  import Text

  // ----- artifacts -----

  /** `read_verified_descriptor`. */
  method ReadDescriptor(env: Env, s: Store, d: Descriptor) returns (r: Option<seq<byte>>)
    ensures r == ReadVerified(env, s, d)
  {
    hide ValidDescriptor;
    var valid := ValidateDescriptor(d);
    if !valid || d.digest !in s.objects { return None; }
    var bytes := s.objects[d.digest];
    if |bytes| != d.byteLength || env.hash(bytes) != d.digest { return None; }
    return Some(bytes);
  }

  /** `load_artifact`. */
  method ReadArtifact(env: Env, s: Store, id: string) returns (r: Option<ArtifactRecord>)
    ensures r == LoadArtifact(env, s, id)
  {
    hide ReadVerified, Text.IsPrefixedId;
    if !Text.IsPrefixedId(id, "artifact_") || id !in s.artifacts { return None; }
    var record := s.artifacts[id];
    if record.artifact.artifactId != id || env.ofArtifact(record.artifact) != record.recordDigest { return None; }
    var bytes := ReadDescriptor(env, s, record.artifact);
    if bytes.None? { return None; }
    return Some(record);
  }

  // The bytes of an artifact that loads.
  method ReadArtifactBytes(env: Env, s: Store, id: string) returns (r: Option<seq<byte>>)
    ensures r == BytesOf(env, s, id)
    ensures r.Some? <==> LoadArtifact(env, s, id).Some?
  {
    hide Text.IsPrefixedId, ValidDescriptor;
    var record := ReadArtifact(env, s, id);
    if record.None? { return None; }
    r := ReadDescriptor(env, s, record.value.artifact);
  }

  // ----- subject and executable -----

  /** `validate_subject`. */
  method ValidateSubject(env: Env, s: Store, subject: Subject) returns (ok: bool)
    ensures ok <==> SubjectHolds(env, s, subject)
  {
    hide LoadArtifact, BytesOf;
    match subject
    case SelfFoundation => return true;
    case ArtifactSubject(id, digest, length, mediaType) =>
      var record := ReadArtifact(env, s, id);
      if record.None? { return false; }
      var d := record.value.artifact;
      return d.digest == digest && d.byteLength == length && d.meta.mediaType == mediaType;
    case GitSubject(bundle, tree) =>
      var a := ReadArtifactBytes(env, s, bundle);
      if a.None? { return false; }
      var b := ReadArtifactBytes(env, s, tree);
      if b.None? { return false; }
      return env.subjectOk(subject, a.value, b.value);
  }

  /** `validate_tool_identity`, with `verify_private_file` of the staged executable. */
  method ValidateToolIdentity(env: Env, s: Store, tool: string, t: ToolIdentity) returns (ok: bool)
    ensures ok <==> ToolHolds(env, s, tool, t)
  {
    hide LoadArtifact;
    if !env.toolOk(tool, t) { return false; }
    var record := ReadArtifact(env, s, t.snapshotId);
    if record.None? { return false; }
    var d := record.value.artifact;
    var roles := ["native_executable_snapshot"];
    if tool == "tomorrowci-lab" { roles := ["native_executable_snapshot", "native_qualification_evidence"]; }
    if d.digest != t.digest || d.byteLength != t.size || d.meta.roles != roles { return false; }
    if d.meta.mediaType != "application/x-executable" || d.meta.origin != "native_file" ||
       d.meta.captureMode != "byte_for_byte_copy" {
      return false;
    }
    if t.path !in s.staged { return false; }
    return |s.staged[t.path]| == t.size && env.hash(s.staged[t.path]) == t.digest;
  }

  // ----- qualifications -----

  // `load_verified` of a native qualification, with the loop over its evidence.
  method LoadQualification(env: Env, s: Store, id: string) returns (r: Option<QualificationRecord>)
    ensures r == if QualificationHolds(env, s, id) then Some(s.qualifications[id]) else None
  {
    hide LoadArtifact, BytesOf, Text.IsPrefixedId;
    if !Text.IsPrefixedId(id, "qualification_") || id !in s.qualifications { return None; }
    var q := s.qualifications[id];
    if q.id != id || env.ofQualification(q.payload) != q.digest { return None; }
    var es := q.payload.evidence;
    var contents: seq<seq<byte>> := [];
    for k := 0 to |es|
      invariant |contents| == k
      invariant forall j | 0 <= j < k ::
                  EvidenceLoads(env, s, es[j]) && Some(contents[j]) == BytesOf(env, s, es[j].artifactId)
    {
      assert es[k] in es;
      var record := ReadArtifact(env, s, es[k].artifactId);
      if record.None? { return None; }
      if record.value.artifact.digest != es[k].digest || record.value.artifact.byteLength != es[k].byteLength {
        return None;
      }
      var bytes := ReadArtifactBytes(env, s, es[k].artifactId);
      contents := contents + [bytes.value];
    }
    assert forall e | e in es :: EvidenceLoads(env, s, e);
    assert contents == EvidenceBytes(env, s, es);
    if !env.qualificationOk(q.payload, contents) { return None; }
    return Some(q);
  }

  /** `validate_bound_ref` of the native qualification. */
  method ValidateQualification(env: Env, s: Store, inputs: Inputs) returns (ok: bool)
    ensures ok <==> QualificationBound(env, s, inputs)
  {
    hide QualificationHolds;
    if inputs.tool != "tomorrowci-lab" { return inputs.qualification.None?; }
    if inputs.qualification.None? { return false; }
    var q := LoadQualification(env, s, inputs.qualification.value.id);
    if q.None? || q.value.digest != inputs.qualification.value.digest { return false; }
    var p := q.value.payload;
    return p.tool == inputs.tool && p.operation == inputs.operation && p.upstreamPin == inputs.upstreamPin &&
      p.executable == inputs.identity.digest;
  }

  /** `verify_artifact_snapshot`. */
  method VerifySnapshot(env: Env, s: Store, f: Snapshot) returns (ok: bool)
    ensures ok <==> SnapshotLoads(env, s, f)
  {
    hide LoadArtifact, BytesOf;
    var record := ReadArtifact(env, s, f.artifactId);
    if record.None? { return false; }
    var bytes := ReadArtifactBytes(env, s, f.artifactId);
    var d := record.value.artifact;
    if d.digest != f.digest || (f.byteLength.Some? && d.byteLength != f.byteLength.value) { return false; }
    return d.meta.roles == [f.role] && d.meta.origin == "native_file" && d.meta.captureMode == "byte_for_byte_copy";
  }

  /** `load_verified` of a runtime capsule: its descriptor, the loop over its files and the loop over its evidence. */
  method LoadCapsule(env: Env, s: Store, id: string) returns (r: Option<CapsuleRecord>)
    ensures r == if CapsuleHolds(env, s, id) then Some(s.capsules[id]) else None
  {
    hide LoadArtifact, BytesOf, SnapshotLoads, Text.IsPrefixedId;
    if !Text.IsPrefixedId(id, "capsule_") || id !in s.capsules { return None; }
    var c := s.capsules[id];
    if c.id != id || env.ofCapsule(c.payload) != c.digest { return None; }
    var described := VerifySnapshot(env, s, c.payload.descriptor);
    if !described { return None; }
    SnapshotHasBytes(env, s, c.payload.descriptor);
    var bytes := ReadArtifactBytes(env, s, c.payload.descriptor.artifactId);
    if !env.capsuleOk(c, bytes.value) { return None; }
    for k := 0 to |c.payload.files|
      invariant forall j | 0 <= j < k :: SnapshotLoads(env, s, c.payload.files[j])
    {
      assert c.payload.files[k] in c.payload.files;
      var held := VerifySnapshot(env, s, c.payload.files[k]);
      if !held { return None; }
    }
    for k := 0 to |c.payload.evidence|
      invariant forall j | 0 <= j < k :: EvidenceMatches(env, s, c.payload.evidence[j])
    {
      var e := c.payload.evidence[k];
      assert e in c.payload.evidence;
      var record := ReadArtifact(env, s, e.0);
      if record.None? || record.value.artifact.digest != e.1 { return None; }
    }
    return Some(c);
  }

  lemma SnapshotHasBytes(env: Env, s: Store, f: Snapshot)
    requires SnapshotLoads(env, s, f)
    ensures BytesOf(env, s, f.artifactId).Some?
  {
  }

  // ----- inventories and admissions -----

  /** `verify_exact_artifact_binding`. */
  method VerifyBinding(env: Env, s: Store, b: Binding) returns (ok: bool)
    ensures ok <==> BindingLoads(env, s, b)
  {
    hide LoadArtifact, Text.Hex;
    var r := ReadArtifact(env, s, b.artifact.id);
    if r.None? { return false; }
    return Text.Hex(r.value.recordDigest) == b.artifact.digest && r.value.artifact.digest == b.digest &&
      r.value.artifact.byteLength == b.byteLength;
  }

  /** `verify_wrapper_binding`. */
  method VerifyWrapper(env: Env, s: Store, b: Binding) returns (ok: bool)
    ensures ok <==> WrapperHolds(env, s, b)
  {
    hide LoadArtifact, BytesOf, Text.Hex;
    var bound := VerifyBinding(env, s, b);
    if !bound { return false; }
    var r := ReadArtifact(env, s, b.artifact.id);
    var m := r.value.artifact.meta;
    if m.roles != ["python_runtime_qualification_wrapper"] || m.mediaType != "text/x-python" ||
       m.origin != "native_file" || m.captureMode != "byte_for_byte_copy" {
      return false;
    }
    var bytes := ReadArtifactBytes(env, s, b.artifact.id);
    return bytes.Some? && bytes.value == env.wrapper;
  }

  /** `load_verified` of a Python inventory. */
  method LoadInventory(env: Env, s: Store, id: string) returns (r: Option<InventoryRecord>)
    ensures r == if InventoryHolds(env, s, id) then Some(s.inventories[id]) else None
  {
    hide CapsuleHolds, BindingLoads, WrapperHolds, Text.IsPrefixedId;
    if !Text.IsPrefixedId(id, "qualification_") || id !in s.inventories { return None; }
    var i := s.inventories[id];
    if i.inventory.reference.id != id { return None; }
    var capsule := LoadCapsule(env, s, i.capsule.id);
    if CapsuleHolds(env, s, i.capsule.id) { CapsuleIsStored(env, s, i.capsule.id); }
    if capsule.None? || capsule.value.digest != i.capsule.digest || !env.inventoryOk(i, capsule.value) { return None; }
    for k := 0 to |i.inputs|
      invariant forall j | 0 <= j < k :: BindingLoads(env, s, i.inputs[j])
    {
      assert i.inputs[k] in i.inputs;
      var bound := VerifyBinding(env, s, i.inputs[k]);
      if !bound { return None; }
    }
    var wrapped := VerifyWrapper(env, s, i.wrapper);
    if !wrapped { return None; }
    return Some(i);
  }

  /** `validate_bound_ref` of an execution admission. */
  method ValidateAdmission(env: Env, s: Store, inputs: Inputs) returns (ok: bool)
    ensures ok <==> AdmissionBound(env, s, inputs)
  {
    hide AdmissionTermination.Accepts, InventoryHolds;
    if inputs.admission.None? { return true; }
    if inputs.operation != "trust_meter_measure" && inputs.operation != "phaseledger_measure" { return false; }
    var reference := inputs.admission.value;
    var inventories := map id | id in s.inventories :: s.inventories[id].inventory;
    var registry := AdmissionRegistry.Registry(inventories, s.admissions);
    if !AdmissionTermination.Accepts(env.admissions, registry, reference.id) { return false; }
    if reference.id !in s.admissions { return false; }
    var r := s.admissions[reference.id];
    if r.digest != reference.digest { return false; }
    if r.payload.tool.manifestId != inputs.tool || r.payload.operation != inputs.operation { return false; }
    if r.payload.admission.state != AdmissionPayload.NotGranted { return false; }
    var inventory := LoadInventory(env, s, r.payload.inventory.id);
    return inventory.Some?;
  }

  // The checks of a plan's inputs that read the store.
  method ValidateInputs(env: Env, s: Store, inputs: Inputs) returns (ok: bool)
    ensures ok <==> InputsHold(env, s, inputs)
  {
    hide ToolHolds, QualificationBound, AdmissionBound, SubjectHolds;
    ok := ValidateToolIdentity(env, s, inputs.tool, inputs.identity);
    if !ok { return false; }
    var pin := env.readyPin(inputs.tool);
    if pin.None? || pin.value != inputs.upstreamPin { return false; }
    ok := ValidateQualification(env, s, inputs);
    if !ok { return false; }
    ok := ValidateAdmission(env, s, inputs);
    if !ok { return false; }
    ok := ValidateSubject(env, s, inputs.subject);
  }

  // ----- plans and runs -----

  /** `load_plan`. */
  method ReadPlan(env: Env, s: Store, id: string) returns (r: Option<PlanRecord>)
    ensures r == LoadPlan(env, s, id)
  {
    hide Text.IsPrefixedId;
    if !Text.IsPrefixedId(id, "plan_") || id !in s.plans { return None; }
    var record := s.plans[id];
    if record.planId != id || env.ofPlan(record.payload) != record.digest { return None; }
    return Some(record);
  }

  /** `load_plan_verified`. */
  method ReadPlanVerified(env: Env, s: Store, id: string) returns (r: Option<PlanRecord>)
    ensures r == LoadPlanVerified(env, s, id)
  {
    hide LoadPlan, InputsHold;
    r := ReadPlan(env, s, id);
    if r.None? || !env.planOk(id, r.value.payload) { return None; }
    var ok := ValidateInputs(env, s, r.value.payload.inputs);
    if !ok { return None; }
  }

  lemma {:induction false} WithRoleSplit(a: seq<Descriptor>, b: seq<Descriptor>, role: string)
    ensures WithRole(a + b, role) == WithRole(a, role) + WithRole(b, role)
  {
    if a == [] {
      assert a + b == b;
    } else {
      assert (a + b)[1..] == a[1..] + b;
      WithRoleSplit(a[1..], b, role);
    }
  }

  // What the set of roles says of the artifacts before the `k`th: each role in it is that of one of them.
  ghost predicate RolesSeen(artifacts: seq<Descriptor>, k: nat, roles: set<string>)
    requires k <= |artifacts|
  {
    forall role :: |WithRole(artifacts[..k], role)| == if role in roles then 1 else 0
  }

  lemma SeenNext(artifacts: seq<Descriptor>, k: nat, before: set<string>, after: set<string>)
    requires k < |artifacts| && RolesSeen(artifacts, k, before)
    requires (forall role | role in artifacts[k].meta.roles :: role !in before)
    requires after == before + set role | role in artifacts[k].meta.roles
    ensures RolesSeen(artifacts, k + 1, after)
  {
    forall role: string
      ensures |WithRole(artifacts[..k + 1], role)| == if role in after then 1 else 0
    {
      assert artifacts[..k + 1] == artifacts[..k] + [artifacts[k]];
      WithRoleSplit(artifacts[..k], [artifacts[k]], role);
      assert [artifacts[k]][1..] == [];
    }
  }

  // A role that two artifacts have is not backed.
  lemma SharedRoleIsNotBacked(m: Manifest, artifacts: seq<Descriptor>, k: nat, before: set<string>, role: string)
    requires k < |artifacts| && RolesSeen(artifacts, k, before) && role in before && role in artifacts[k].meta.roles
    ensures !RolesBacked(m, artifacts, artifacts[k])
  {
    hide RolesSeen;
    assert |WithRole(artifacts[..k], role)| == 1 by { SeenRole(artifacts, k, before, role); }
    assert artifacts == artifacts[..k] + ([artifacts[k]] + artifacts[k + 1..]);
    WithRoleSplit(artifacts[..k], [artifacts[k]] + artifacts[k + 1..], role);
    assert !Backed(m, artifacts, role);
  }

  lemma SeenRole(artifacts: seq<Descriptor>, k: nat, before: set<string>, role: string)
    requires k <= |artifacts| && RolesSeen(artifacts, k, before)
    ensures |WithRole(artifacts[..k], role)| == if role in before then 1 else 0
  {
  }

  // The checks of one role of a captured artifact, apart from its being the role of no other.
  method ValidateRoleContract(m: Manifest, d: Descriptor, role: string) returns (ok: bool)
    ensures ok <==> ExactStream(m, d, role)
  {
    hide ContractsIn;
    var matches := FilterContracts(m.artifacts, role);
    if |matches| != 1 { return false; }
    if matches[0].bytePolicy != "exact" || matches[0].discovery != "captured_stream" { return false; }
    match role
    case "native_stdout" => return d.meta.origin == "process_stdout" && d.meta.captureMode == "raw_stream_capture";
    case "native_stderr" => return d.meta.origin == "process_stderr" && d.meta.captureMode == "raw_stream_capture";
    case _ => return false;
  }

  ghost predicate ExactStream(m: Manifest, d: Descriptor, role: string) {
    UniquelyExact(m, role) && StreamOf(role, d.meta)
  }

  lemma BackedIff(m: Manifest, artifacts: seq<Descriptor>, d: Descriptor, role: string)
    requires |WithRole(artifacts, role)| == 1 && d in artifacts && role in d.meta.roles
    ensures Backed(m, artifacts, role) <==> ExactStream(m, d, role)
  {
    InWithRole(artifacts, d, role);
    hide WithRole, ContractsIn;
  }

  lemma {:induction false} InWithRole(artifacts: seq<Descriptor>, d: Descriptor, role: string)
    requires d in artifacts && role in d.meta.roles
    ensures d in WithRole(artifacts, role)
  {
    if artifacts[0] != d { InWithRole(artifacts[1..], d, role); }
  }

  // The inner loop of `validate_artifacts`, over the roles of one artifact.
  method ValidateRolesOf(m: Manifest, d: Descriptor, seen: set<string>) returns (ok: bool, roles: set<string>)
    requires ValidRoles(d.meta.roles)
    ensures ok <==> forall role | role in d.meta.roles :: role !in seen && ExactStream(m, d, role)
    ensures ok ==> roles == seen + set role | role in d.meta.roles
  {
    hide ExactStream, ValidRole;
    roles := seen;
    for k := 0 to |d.meta.roles|
      invariant roles == seen + set j | 0 <= j < k :: d.meta.roles[j]
      invariant forall j | 0 <= j < k :: d.meta.roles[j] !in seen && ExactStream(m, d, d.meta.roles[j])
    {
      var role := d.meta.roles[k];
      assert role in d.meta.roles;
      if role in roles { return false, roles; }
      roles := roles + {role};
      var exact := ValidateRoleContract(m, d, role);
      if !exact { return false, roles; }
    }
    return true, roles;
  }

  // Every captured artifact up to the `k`th is committed once and has exact stream roles.
  ghost predicate CheckedUpTo(env: Env, s: Store, m: Manifest, artifacts: seq<Descriptor>, k: nat)
    requires k <= |artifacts|
  {
    && (forall j | 0 <= j < k :: Committed(env, s, artifacts[j]))
    && (forall i, j | 0 <= i < j < k :: artifacts[i].artifactId != artifacts[j].artifactId)
    && (forall j | 0 <= j < k :: ExactRoles(m, artifacts[j]))
  }

  ghost predicate ExactRoles(m: Manifest, d: Descriptor) {
    forall role | role in d.meta.roles :: ExactStream(m, d, role)
  }

  lemma CheckedIsHeld(env: Env, s: Store, m: Manifest, artifacts: seq<Descriptor>, roles: set<string>)
    requires CheckedUpTo(env, s, m, artifacts, |artifacts|) && RolesSeen(artifacts, |artifacts|, roles)
    ensures ArtifactsHold(env, s, m, artifacts)
  {
    hide Committed, ExactStream, Backed, WithRole, RolesSeen;
    assert artifacts[..|artifacts|] == artifacts;
    forall d, role | d in artifacts && role in d.meta.roles
      ensures Backed(m, artifacts, role)
    {
      SeenRole(artifacts, |artifacts|, roles, role);
      InWithRole(artifacts, d, role);
      BackedIff(m, artifacts, d, role);
    }
  }

  lemma BackedRolesAreExact(m: Manifest, artifacts: seq<Descriptor>, d: Descriptor)
    requires d in artifacts && RolesBacked(m, artifacts, d)
    ensures ExactRoles(m, d)
  {
    hide ExactStream, WithRole, ContractsIn;
    forall role | role in d.meta.roles
      ensures ExactStream(m, d, role)
    {
      assert Backed(m, artifacts, role);
      BackedIff(m, artifacts, d, role);
    }
  }

  lemma CommittedIsValid(env: Env, s: Store, d: Descriptor)
    requires Committed(env, s, d)
    ensures ValidRoles(d.meta.roles)
  {
  }

  /** `validate_artifacts`: the loop over the captured artifacts, with the sets of identifiers and of roles. */
  method ValidateArtifacts(env: Env, s: Store, m: Manifest, artifacts: seq<Descriptor>) returns (ok: bool)
    ensures ok <==> ArtifactsHold(env, s, m, artifacts)
  {
    hide RolesBacked, ExactRoles, ExactStream, RolesSeen, LoadArtifact;
    var ids: set<string> := {};
    var roles: set<string> := {};
    NothingSeen(artifacts);
    for k := 0 to |artifacts|
      invariant CheckedUpTo(env, s, m, artifacts, k) && RolesSeen(artifacts, k, roles)
      invariant ids == set j | 0 <= j < k :: artifacts[j].artifactId
    {
      var d := artifacts[k];
      assert d in artifacts;
      if RolesBacked(m, artifacts, d) { BackedRolesAreExact(m, artifacts, d); }
      var committed := ReadArtifact(env, s, d.artifactId);
      if committed.None? || committed.value.artifact != d { return false; }
      if d.artifactId in ids { return false; }
      ids := ids + {d.artifactId};
      CommittedIsValid(env, s, d);
      ghost var before := roles;
      var exact;
      exact, roles := ValidateRolesOf(m, d, roles);
      RoleCheckMeans(m, artifacts, k, before, exact);
      if !exact { return false; }
      SeenNext(artifacts, k, before, roles);
    }
    CheckedIsHeld(env, s, m, artifacts, roles);
    return true;
  }

  lemma NothingSeen(artifacts: seq<Descriptor>)
    ensures RolesSeen(artifacts, 0, {})
  {
    assert artifacts[..0] == [];
  }

  // The inner loop fails only on an artifact whose roles are not backed.
  lemma RoleCheckMeans(m: Manifest, artifacts: seq<Descriptor>, k: nat, before: set<string>, exact: bool)
    requires k < |artifacts| && RolesSeen(artifacts, k, before)
    requires exact <==>
             forall role | role in artifacts[k].meta.roles :: role !in before && ExactStream(m, artifacts[k], role)
    ensures exact ==> ExactRoles(m, artifacts[k])
    ensures !exact ==> !RolesBacked(m, artifacts, artifacts[k])
  {
    hide RolesSeen, ExactStream;
    var d := artifacts[k];
    if !exact {
      var role :| role in d.meta.roles && (role in before || !ExactStream(m, d, role));
      if role in before {
        SharedRoleIsNotBacked(m, artifacts, k, before, role);
      } else if RolesBacked(m, artifacts, d) {
        BackedRolesAreExact(m, artifacts, d);
      }
    }
  }

  /** `validate_source_plan_lineage`. */
  method ValidateLineage(env: Env, s: Store, run: Run) returns (ok: bool)
    ensures ok <==> LineageHolds(env, s, run)
  {
    hide LoadPlan, Text.IsSha256;
    if !Text.IsSha256(run.plan.digest) { return false; }
    var plan := ReadPlan(env, s, run.plan.id);
    if plan.None? || plan.value.digest != run.plan.digest { return false; }
    return plan.value.payload.inputs == run.inputs;
  }

  /** `run_validation::validate`. */
  method Validate(env: Env, s: Store, run: Run) returns (ok: bool)
    ensures ok <==> ValidRun(env, s, run)
  {
    hide InputsHold, ArtifactsHold, LineageHolds, Confirmed, DistinctIdentities, Text.IsPrefixedId, REASONS;
    if !Text.IsPrefixedId(run.runId, "run_") || !env.runOk(run) { return false; }
    ok := ValidateInputs(env, s, run.inputs);
    if !ok { return false; }
    var m := env.manifest(run.inputs.tool);
    ok := ValidateArtifacts(env, s, m, run.artifacts);
    if !ok { return false; }
    ok := ValidateNativeResult(ReadersOf(env, s), m, run.termination, run.artifacts, run.result);
    if !ok { return false; }
    ok := ValidateLineage(env, s, run);
  }

  /** `load_run`. */
  method ReadRun(env: Env, s: Store, id: string) returns (r: Option<RunRecord>)
    ensures r == LoadRun(env, s, id)
  {
    hide ValidRun, Text.IsPrefixedId;
    if !Text.IsPrefixedId(id, "run_") || id !in s.runs { return None; }
    var record := s.runs[id];
    if record.run.runId != id || env.ofRun(record.run) != record.digest { return None; }
    var ok := Validate(env, s, record.run);
    if !ok { return None; }
    return Some(record);
  }
}
