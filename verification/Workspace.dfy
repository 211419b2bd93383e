/** The registries of a workspace and the validation of plans and runs against them. A `Store` is what the files on disk
    amount to at one moment; `StoreBridge` derives it from the two publication protocols. */
module Workspace {
  import opened Wrappers
  import opened Bytes
  import opened Descriptors
  import opened NativeAgreement
  import opened NativeObservations
  import AdmissionPayload
  import AdmissionRegistry
  import AdmissionTermination
  import Parameters
  import Text

  // A reference to a record by identifier and digest.
  datatype Ref = Ref(id: string, digest: string)

  datatype Subject =
    | SelfFoundation
    | ArtifactSubject(artifactId: string, digest: Digest, byteLength: nat, mediaType: string)
    | GitSubject(bundleId: string, treeId: string)

  // The executable of a plan: where it is staged, its identity and the artifact that preserves it.
  datatype ToolIdentity = ToolIdentity(path: string, digest: Digest, size: nat, snapshotId: string)

  // What a run inherits from its plan.
  datatype Inputs = Inputs(tool: string, operation: string, upstreamPin: string, identity: ToolIdentity,
                           qualification: Option<Ref>, admission: Option<Ref>, subject: Subject,
                           parameters: Parameters.Values, invocation: string)

  // A stored artifact that a qualification rests on.
  datatype Evidence = Evidence(artifactId: string, digest: Digest, byteLength: nat)
  datatype Qualification = Qualification(tool: string, operation: string, upstreamPin: string, executable: Digest,
                                         evidence: seq<Evidence>)

  // A file of a runtime capsule: the artifact that preserves it, which has this one role. The length of the
  // capsule's own descriptor is not recorded.
  datatype Snapshot = Snapshot(artifactId: string, digest: Digest, byteLength: Option<nat>, role: string)
  datatype Capsule = Capsule(descriptor: Snapshot, files: seq<Snapshot>, evidence: seq<(string, Digest)>)

  // An artifact as an inventory binds it: its record, its digest and its length.
  datatype Binding = Binding(artifact: Ref, digest: Digest, byteLength: nat)

  datatype Plan = Plan(inputs: Inputs, createdAt: string)
  datatype Run = Run(runId: string, plan: Ref, inputs: Inputs, artifacts: seq<Descriptor>, termination: Termination,
                     result: NativeResult)
  datatype Handoff = Handoff(handoffId: string, createdAt: string, plan: Ref, run: Ref, artifact: Ref)

  datatype PlanRecord = PlanRecord(planId: string, payload: Plan, digest: string)
  datatype RunRecord = RunRecord(run: Run, digest: string)
  datatype HandoffRecord = HandoffRecord(handoff: Handoff, digest: string)
  datatype QualificationRecord = QualificationRecord(id: string, payload: Qualification, digest: string)
  datatype CapsuleRecord = CapsuleRecord(id: string, payload: Capsule, digest: string)

  // An inventory of a Python runtime: what admissions take from it, its capsule, the archive, path configuration,
  // wheels and installed RECORDs, and the wrapper.
  datatype InventoryRecord = InventoryRecord(inventory: AdmissionRegistry.Inventory, capsule: Ref, inputs: seq<Binding>,
                                             wrapper: Binding)

  // `staged` holds the staged executables, each a file of its own with one link.
  datatype Store = Store(
    objects: map<Digest, seq<byte>>,
    artifacts: map<string, ArtifactRecord>,
    plans: map<string, PlanRecord>,
    runs: map<string, RunRecord>,
    handoffs: map<string, HandoffRecord>,
    qualifications: map<string, QualificationRecord>,
    capsules: map<string, CapsuleRecord>,
    inventories: map<string, InventoryRecord>,
    admissions: map<string, AdmissionRegistry.Record>,
    staged: map<string, seq<byte>>)

  // The hash of bytes and of serialised records, JSON selection, the embedded manifests and the digests of the
  // upstream pins that are ready, and the checks that look at a record and these alone. `subjectOk` sees the bytes
  // of the artifacts of a Git subject, `qualificationOk` the bytes of its evidence, `capsuleOk` the bytes of its
  // descriptor, and `inventoryOk` the record of its capsule. `wrapper` is the embedded wrapper.
  datatype Env = Env(
    hash: Hash,
    ofArtifact: Descriptor -> Digest,
    ofPlan: Plan -> string,
    ofRun: Run -> string,
    ofHandoff: Handoff -> string,
    ofQualification: Qualification -> string,
    ofCapsule: Capsule -> string,
    admissions: AdmissionRegistry.Env,
    json: (seq<byte>, string) -> Option<Json>,
    manifest: string -> Manifest,
    readyPin: string -> Option<string>,
    timestamp: string -> bool,
    toolOk: (string, ToolIdentity) -> bool,
    planOk: (string, Plan) -> bool,
    runOk: Run -> bool,
    subjectOk: (Subject, seq<byte>, seq<byte>) -> bool,
    qualificationOk: (Qualification, seq<seq<byte>>) -> bool,
    capsuleOk: (CapsuleRecord, seq<byte>) -> bool,
    inventoryOk: (InventoryRecord, CapsuleRecord) -> bool,
    wrapper: seq<byte>)

  const QUALIFIED_TOOL := "tomorrowci-lab"

  // ----- loading artifacts -----

  /** `read_verified_descriptor`. */
  function ReadVerified(env: Env, s: Store, d: Descriptor): Option<seq<byte>> {
    if ValidDescriptor(d) && d.digest in s.objects && env.hash(s.objects[d.digest]) == d.digest &&
       |s.objects[d.digest]| == d.byteLength
    then Some(s.objects[d.digest])
    else None
  }

  function LoadArtifact(env: Env, s: Store, id: string): Option<ArtifactRecord> {
    if Text.IsPrefixedId(id, "artifact_") && id in s.artifacts && s.artifacts[id].artifact.artifactId == id &&
       env.ofArtifact(s.artifacts[id].artifact) == s.artifacts[id].recordDigest &&
       ReadVerified(env, s, s.artifacts[id].artifact).Some?
    then Some(s.artifacts[id])
    else None
  }

  function BytesOf(env: Env, s: Store, id: string): Option<seq<byte>> {
    match LoadArtifact(env, s, id)
    case None => None
    case Some(record) => ReadVerified(env, s, record.artifact)
  }

  /** `validate_subject`: the stored artifacts a subject names load, with the recorded identity. */
  predicate SubjectHolds(env: Env, s: Store, subject: Subject) {
    match subject
    case SelfFoundation => true
    case ArtifactSubject(id, digest, length, mediaType) =>
      LoadArtifact(env, s, id).Some? &&
      var d := LoadArtifact(env, s, id).value.artifact;
        d.digest == digest && d.byteLength == length && d.meta.mediaType == mediaType
    case GitSubject(bundle, tree) =>
      BytesOf(env, s, bundle).Some? && BytesOf(env, s, tree).Some? &&
      env.subjectOk(subject, BytesOf(env, s, bundle).value, BytesOf(env, s, tree).value)
  }

  // ----- the executable and its references -----

  function SnapshotRoles(tool: string): seq<string> {
    if tool == QUALIFIED_TOOL then ["native_executable_snapshot", "native_qualification_evidence"]
    else ["native_executable_snapshot"]
  }

  /** `validate_tool_identity`: the snapshot artifact is stored as the executable of this identity, and the staged copy
      on disk still has its bytes. */
  predicate ToolHolds(env: Env, s: Store, tool: string, t: ToolIdentity) {
    && env.toolOk(tool, t)
    && LoadArtifact(env, s, t.snapshotId).Some?
    && (var d := LoadArtifact(env, s, t.snapshotId).value.artifact;
        d.digest == t.digest && d.byteLength == t.size &&
        d.meta == Meta(SnapshotRoles(tool), "application/x-executable", "native_file", "byte_for_byte_copy"))
    && t.path in s.staged && env.hash(s.staged[t.path]) == t.digest && |s.staged[t.path]| == t.size
  }

  predicate EvidenceLoads(env: Env, s: Store, e: Evidence) {
    LoadArtifact(env, s, e.artifactId).Some? && BytesOf(env, s, e.artifactId).Some? &&
    var d := LoadArtifact(env, s, e.artifactId).value.artifact;
      d.digest == e.digest && d.byteLength == e.byteLength
  }

  function EvidenceBytes(env: Env, s: Store, es: seq<Evidence>): seq<seq<byte>>
    requires forall e | e in es :: EvidenceLoads(env, s, e)
  {
    seq(|es|, i requires 0 <= i < |es| => assert EvidenceLoads(env, s, es[i]); BytesOf(env, s, es[i].artifactId).value)
  }

  /** `load_verified` of a native qualification: its evidence is stored and its semantics hold of the evidence bytes. */
  predicate QualificationHolds(env: Env, s: Store, id: string) {
    && Text.IsPrefixedId(id, "qualification_") && id in s.qualifications && s.qualifications[id].id == id
    && (var q := s.qualifications[id];
        && env.ofQualification(q.payload) == q.digest
        && (forall e | e in q.payload.evidence :: EvidenceLoads(env, s, e))
        && env.qualificationOk(q.payload, EvidenceBytes(env, s, q.payload.evidence)))
  }

  /** `validate_bound_ref` of the native qualification of a plan or run. */
  predicate QualificationBound(env: Env, s: Store, inputs: Inputs) {
    if inputs.tool != QUALIFIED_TOOL then inputs.qualification.None?
    else
      && inputs.qualification.Some?
      && QualificationHolds(env, s, inputs.qualification.value.id)
      && var q := s.qualifications[inputs.qualification.value.id];
         q.digest == inputs.qualification.value.digest && q.payload.tool == inputs.tool &&
         q.payload.operation == inputs.operation && q.payload.upstreamPin == inputs.upstreamPin &&
         q.payload.executable == inputs.identity.digest
  }

  /** `verify_artifact_snapshot`. */
  predicate SnapshotLoads(env: Env, s: Store, f: Snapshot) {
    LoadArtifact(env, s, f.artifactId).Some? && BytesOf(env, s, f.artifactId).Some? &&
    var d := LoadArtifact(env, s, f.artifactId).value.artifact;
      d.digest == f.digest && (f.byteLength.Some? ==> d.byteLength == f.byteLength.value) && d.meta.roles == [f.role] &&
      d.meta.origin == "native_file" && d.meta.captureMode == "byte_for_byte_copy"
  }

  predicate EvidenceMatches(env: Env, s: Store, e: (string, Digest)) {
    LoadArtifact(env, s, e.0).Some? && LoadArtifact(env, s, e.0).value.artifact.digest == e.1
  }

  /** `load_verified` of a runtime capsule: descriptor, files and evidence are stored as declared, and the descriptor's
      bytes describe the capsule. */
  predicate CapsuleHolds(env: Env, s: Store, id: string) {
    && Text.IsPrefixedId(id, "capsule_") && id in s.capsules && s.capsules[id].id == id
    && (var c := s.capsules[id];
        && env.ofCapsule(c.payload) == c.digest && SnapshotLoads(env, s, c.payload.descriptor)
        && env.capsuleOk(c, BytesOf(env, s, c.payload.descriptor.artifactId).value)
        && (forall f | f in c.payload.files :: SnapshotLoads(env, s, f))
        && (forall e | e in c.payload.evidence :: EvidenceMatches(env, s, e)))
  }

  /** `verify_exact_artifact_binding`. */
  predicate BindingLoads(env: Env, s: Store, b: Binding) {
    LoadArtifact(env, s, b.artifact.id).Some? &&
    var r := LoadArtifact(env, s, b.artifact.id).value;
      Text.Hex(r.recordDigest) == b.artifact.digest && r.artifact.digest == b.digest &&
      r.artifact.byteLength == b.byteLength
  }

  /** `verify_wrapper_binding`: the stored wrapper is the embedded one. */
  predicate WrapperHolds(env: Env, s: Store, b: Binding) {
    BindingLoads(env, s, b) && BytesOf(env, s, b.artifact.id) == Some(env.wrapper) &&
    LoadArtifact(env, s, b.artifact.id).value.artifact.meta ==
      Meta(["python_runtime_qualification_wrapper"], "text/x-python", "native_file", "byte_for_byte_copy")
  }

  /** `load_verified` of a Python inventory: its capsule verifies again under the digest it names, and its inputs
      and its wrapper are stored as bound. */
  predicate InventoryHolds(env: Env, s: Store, id: string) {
    && Text.IsPrefixedId(id, "qualification_") && id in s.inventories && s.inventories[id].inventory.reference.id == id
    && (var i := s.inventories[id];
        && CapsuleHolds(env, s, i.capsule.id) && s.capsules[i.capsule.id].digest == i.capsule.digest
        && env.inventoryOk(i, s.capsules[i.capsule.id])
        && (forall b | b in i.inputs :: BindingLoads(env, s, b)) && WrapperHolds(env, s, i.wrapper))
  }

  // What the verification of admissions takes from the store.
  function RegistryOf(s: Store): AdmissionRegistry.Registry {
    AdmissionRegistry.Registry(map id | id in s.inventories :: s.inventories[id].inventory, s.admissions)
  }

  /** `validate_bound_ref` of an execution admission: the whole citation chain verifies again, as does the one inventory
      that all of it names, and the record binds this tool and operation. */
  predicate AdmissionBound(env: Env, s: Store, inputs: Inputs) {
    match inputs.admission
    case None => true
    case Some(reference) =>
      && inputs.operation in AdmissionPayload.ALLOWED_OPERATIONS
      && AdmissionTermination.Accepts(env.admissions, RegistryOf(s), reference.id)
      && reference.id in s.admissions
      && var r := s.admissions[reference.id];
         && r.digest == reference.digest && r.payload.tool.manifestId == inputs.tool
         && r.payload.operation == inputs.operation && r.payload.admission.state == AdmissionPayload.NotGranted
         && InventoryHolds(env, s, r.payload.inventory.id)
  }

  /** The checks of a plan's inputs that read the store, and the upstream pin, which must be the ready one. */
  predicate InputsHold(env: Env, s: Store, inputs: Inputs) {
    env.readyPin(inputs.tool) == Some(inputs.upstreamPin) && ToolHolds(env, s, inputs.tool, inputs.identity) &&
    QualificationBound(env, s, inputs) && AdmissionBound(env, s, inputs) && SubjectHolds(env, s, inputs.subject)
  }

  // ----- plans and runs -----

  function LoadPlan(env: Env, s: Store, id: string): Option<PlanRecord> {
    if Text.IsPrefixedId(id, "plan_") && id in s.plans && s.plans[id].planId == id &&
       env.ofPlan(s.plans[id].payload) == s.plans[id].digest
    then Some(s.plans[id])
    else None
  }

  /** `load_plan_verified`. */
  function LoadPlanVerified(env: Env, s: Store, id: string): Option<PlanRecord> {
    match LoadPlan(env, s, id)
    case None => None
    case Some(record) =>
      if env.planOk(id, record.payload) && InputsHold(env, s, record.payload.inputs) then Some(record) else None
  }

  /** `validate_artifacts`: every captured artifact is committed as the run describes it, once, and each of its roles is
      that of no other, and is the one of a raw process stream that the manifest captures exactly. */
  predicate ArtifactsHold(env: Env, s: Store, m: Manifest, artifacts: seq<Descriptor>) {
    && (forall d | d in artifacts :: Committed(env, s, d))
    && (forall i, j | 0 <= i < j < |artifacts| :: artifacts[i].artifactId != artifacts[j].artifactId)
    && (forall d | d in artifacts :: RolesBacked(m, artifacts, d))
  }

  predicate Committed(env: Env, s: Store, d: Descriptor) {
    LoadArtifact(env, s, d.artifactId).Some? && LoadArtifact(env, s, d.artifactId).value.artifact == d
  }

  predicate RolesBacked(m: Manifest, artifacts: seq<Descriptor>, d: Descriptor) {
    forall role | role in d.meta.roles :: Backed(m, artifacts, role)
  }

  function ReadersOf(env: Env, s: Store): Readers {
    Readers((d: Descriptor) => ReadVerified(env, s, d), env.json)
  }

  /** `validate_source_plan_lineage`. */
  predicate LineageHolds(env: Env, s: Store, run: Run) {
    Text.IsSha256(run.plan.digest) && LoadPlan(env, s, run.plan.id).Some? &&
    var plan := LoadPlan(env, s, run.plan.id).value;
      plan.digest == run.plan.digest && plan.payload.inputs == run.inputs
  }

  /** `run_validation::validate`. */
  predicate ValidRun(env: Env, s: Store, run: Run) {
    && Text.IsPrefixedId(run.runId, "run_")
    && env.runOk(run)
    && InputsHold(env, s, run.inputs)
    && ArtifactsHold(env, s, env.manifest(run.inputs.tool), run.artifacts)
    && Accepted(ReadersOf(env, s), env.manifest(run.inputs.tool), run.termination, run.artifacts, run.result)
    && LineageHolds(env, s, run)
  }

  function LoadRun(env: Env, s: Store, id: string): Option<RunRecord> {
    if Text.IsPrefixedId(id, "run_") && id in s.runs && s.runs[id].run.runId == id &&
       env.ofRun(s.runs[id].run) == s.runs[id].digest && ValidRun(env, s, s.runs[id].run)
    then Some(s.runs[id])
    else None
  }

  // ----- growth -----

  ghost predicate Keeps<K, V>(a: map<K, V>, b: map<K, V>) {
    forall k | k in a :: k in b && b[k] == a[k]
  }

  /** Everything stored is still there, unchanged. */
  ghost predicate Extends(s: Store, t: Store) {
    Keeps(s.objects, t.objects) && Keeps(s.artifacts, t.artifacts) && Keeps(s.plans, t.plans) &&
    Keeps(s.runs, t.runs) && Keeps(s.handoffs, t.handoffs) && Keeps(s.qualifications, t.qualifications) &&
    Keeps(s.capsules, t.capsules) && Keeps(s.inventories, t.inventories) && Keeps(s.admissions, t.admissions) &&
    Keeps(s.staged, t.staged)
  }

  lemma ReadsStay(env: Env, s: Store, t: Store, d: Descriptor)
    requires Extends(s, t) && ReadVerified(env, s, d).Some?
    ensures ReadVerified(env, t, d) == ReadVerified(env, s, d)
  {
    hide ValidDescriptor;
  }

  lemma ArtifactStays(env: Env, s: Store, t: Store, id: string)
    requires Extends(s, t) && LoadArtifact(env, s, id).Some?
    ensures LoadArtifact(env, t, id) == LoadArtifact(env, s, id)
    ensures BytesOf(env, t, id) == BytesOf(env, s, id)
  {
    hide ReadVerified;
    ReadsStay(env, s, t, s.artifacts[id].artifact);
  }

  lemma SubjectStays(env: Env, s: Store, t: Store, subject: Subject)
    requires Extends(s, t) && SubjectHolds(env, s, subject)
    ensures SubjectHolds(env, t, subject)
  {
    hide LoadArtifact, ReadVerified, Extends;
    match subject
    case SelfFoundation =>
    case ArtifactSubject(id, _, _, _) => ArtifactStays(env, s, t, id);
    case GitSubject(bundle, tree) =>
      ArtifactStays(env, s, t, bundle);
      ArtifactStays(env, s, t, tree);
  }

  lemma ToolStays(env: Env, s: Store, t: Store, tool: string, identity: ToolIdentity)
    requires Extends(s, t) && ToolHolds(env, s, tool, identity)
    ensures ToolHolds(env, t, tool, identity)
  {
    hide LoadArtifact;
    ArtifactStays(env, s, t, identity.snapshotId);
  }

  lemma QualificationStays(env: Env, s: Store, t: Store, inputs: Inputs)
    requires Extends(s, t) && QualificationBound(env, s, inputs)
    ensures QualificationBound(env, t, inputs)
  {
    hide LoadArtifact, Text.IsPrefixedId, QUALIFIED_TOOL;
    if inputs.qualification.Some? {
      var es := s.qualifications[inputs.qualification.value.id].payload.evidence;
      forall e | e in es
        ensures EvidenceLoads(env, t, e) && BytesOf(env, t, e.artifactId) == BytesOf(env, s, e.artifactId)
      {
        ArtifactStays(env, s, t, e.artifactId);
      }
      assert EvidenceBytes(env, t, es) == EvidenceBytes(env, s, es);
    }
  }

  lemma SnapshotStays(env: Env, s: Store, t: Store, f: Snapshot)
    requires Extends(s, t) && SnapshotLoads(env, s, f)
    ensures SnapshotLoads(env, t, f) && BytesOf(env, t, f.artifactId) == BytesOf(env, s, f.artifactId)
  {
    hide LoadArtifact, Extends, BytesOf;
    ArtifactStays(env, s, t, f.artifactId);
  }

  lemma CapsuleStays(env: Env, s: Store, t: Store, id: string)
    requires Extends(s, t) && CapsuleHolds(env, s, id)
    ensures CapsuleHolds(env, t, id) && t.capsules[id] == s.capsules[id]
  {
    hide LoadArtifact, BytesOf, Text.IsPrefixedId;
    var c := s.capsules[id].payload;
    SnapshotStays(env, s, t, c.descriptor);
    forall f | f in c.files
      ensures SnapshotLoads(env, t, f)
    {
      SnapshotStays(env, s, t, f);
    }
    forall e | e in c.evidence
      ensures EvidenceMatches(env, t, e)
    {
      ArtifactStays(env, s, t, e.0);
    }
  }

  lemma BindingStays(env: Env, s: Store, t: Store, b: Binding)
    requires Extends(s, t) && BindingLoads(env, s, b)
    ensures BindingLoads(env, t, b)
    ensures WrapperHolds(env, s, b) ==> WrapperHolds(env, t, b)
  {
    hide LoadArtifact, Extends, BytesOf, Text.Hex;
    ArtifactStays(env, s, t, b.artifact.id);
  }

  /** An inventory that verifies, its capsule and all artifacts read again, verifies in every extension of the store. */
  lemma InventoryStays(env: Env, s: Store, t: Store, id: string)
    requires Extends(s, t) && InventoryHolds(env, s, id)
    ensures InventoryHolds(env, t, id) && t.inventories[id] == s.inventories[id]
  {
    hide CapsuleHolds, BindingLoads, WrapperHolds, Text.IsPrefixedId;
    var i := s.inventories[id];
    CapsuleStays(env, s, t, i.capsule.id);
    WrapperIsBound(env, s, i.wrapper);
    BindingStays(env, s, t, i.wrapper);
    forall b | b in i.inputs
      ensures BindingLoads(env, t, b)
    {
      BindingStays(env, s, t, b);
    }
    CapsuleIsStored(env, s, i.capsule.id);
  }

  lemma WrapperIsBound(env: Env, s: Store, b: Binding)
    requires WrapperHolds(env, s, b)
    ensures BindingLoads(env, s, b)
  {
  }

  lemma CapsuleIsStored(env: Env, s: Store, id: string)
    requires CapsuleHolds(env, s, id)
    ensures id in s.capsules
  {
  }

  lemma RegistryGrows(s: Store, t: Store)
    requires Extends(s, t)
    ensures AdmissionTermination.Grown(RegistryOf(s), RegistryOf(t))
  {
  }

  lemma AdmissionStays(env: Env, s: Store, t: Store, inputs: Inputs)
    requires Extends(s, t) && AdmissionBound(env, s, inputs)
    ensures AdmissionBound(env, t, inputs)
  {
    hide AdmissionTermination.Accepts, InventoryHolds, AdmissionPayload.ALLOWED_OPERATIONS;
    if inputs.admission.Some? {
      var id := inputs.admission.value.id;
      RegistryGrows(s, t);
      AdmissionTermination.AcceptsStays(env.admissions, RegistryOf(s), RegistryOf(t), id);
      InventoryStays(env, s, t, s.admissions[id].payload.inventory.id);
    }
  }

  lemma InputsStay(env: Env, s: Store, t: Store, inputs: Inputs)
    requires Extends(s, t) && InputsHold(env, s, inputs)
    ensures InputsHold(env, t, inputs)
  {
    hide ToolHolds, QualificationBound, AdmissionBound, SubjectHolds, Extends;
    ToolStays(env, s, t, inputs.tool, inputs.identity);
    QualificationStays(env, s, t, inputs);
    AdmissionStays(env, s, t, inputs);
    SubjectStays(env, s, t, inputs.subject);
  }

  /** A plan that loads, or loads and validates, does so in every extension of the store. */
  lemma PlanStays(env: Env, s: Store, t: Store, id: string)
    requires Extends(s, t)
    ensures LoadPlan(env, s, id).Some? ==> LoadPlan(env, t, id) == LoadPlan(env, s, id)
    ensures LoadPlanVerified(env, s, id).Some? ==> LoadPlanVerified(env, t, id) == LoadPlanVerified(env, s, id)
  {
    hide InputsHold, Text.IsPrefixedId;
    if LoadPlanVerified(env, s, id).Some? {
      InputsStay(env, s, t, s.plans[id].payload.inputs);
    }
  }

  lemma ArtifactsStay(env: Env, s: Store, t: Store, m: Manifest, artifacts: seq<Descriptor>)
    requires Extends(s, t) && ArtifactsHold(env, s, m, artifacts)
    ensures ArtifactsHold(env, t, m, artifacts)
    ensures forall d | d in artifacts :: ReadersOf(env, t).bytes(d) == ReadersOf(env, s).bytes(d)
  {
    hide ReadVerified, RolesBacked;
    forall d | d in artifacts
      ensures LoadArtifact(env, t, d.artifactId) == LoadArtifact(env, s, d.artifactId)
      ensures ReadVerified(env, t, d) == ReadVerified(env, s, d)
    {
      ArtifactStays(env, s, t, d.artifactId);
      ReadsStay(env, s, t, d);
    }
  }

  lemma {:induction false} WithRoleIsIn(artifacts: seq<Descriptor>, role: string)
    ensures forall d | d in WithRole(artifacts, role) :: d in artifacts
  {
    if artifacts != [] {
      WithRoleIsIn(artifacts[1..], role);
    }
  }

  // Readers that agree on the captured artifacts accept the same results.
  lemma AcceptanceStays(r: Readers, q: Readers, m: Manifest, t: Termination, artifacts: seq<Descriptor>,
                        result: NativeResult)
    requires r.json == q.json && (forall d | d in artifacts :: q.bytes(d) == r.bytes(d))
    requires Accepted(r, m, t, artifacts, result)
    ensures Accepted(q, m, t, artifacts, result)
  {
    hide Backed, Matching, DistinctIdentities;
    if result.Reported? {
      forall c | c in m.observations
        ensures Confirmed(q, m, artifacts, result.observations, c)
      {
        assert Confirmed(r, m, artifacts, result.observations, c);
        SameProjection(r, q, artifacts, c);
      }
    }
  }

  lemma SameProjection(r: Readers, q: Readers, artifacts: seq<Descriptor>, c: NativeObservations.Contract)
    requires r.json == q.json && (forall d | d in artifacts :: q.bytes(d) == r.bytes(d))
    ensures Project(q, artifacts, c) == Project(r, artifacts, c)
  {
    hide WithRole;
    var sources := WithRole(artifacts, c.role);
    WithRoleIsIn(artifacts, c.role);
    if sources != [] {
      assert sources[0] in sources;
    }
  }

  /** A run that loads and validates does so, unchanged, in every extension of the store. */
  lemma RunStays(env: Env, s: Store, t: Store, id: string)
    requires Extends(s, t) && LoadRun(env, s, id).Some?
    ensures LoadRun(env, t, id) == LoadRun(env, s, id)
  {
    hide InputsHold, Text.IsPrefixedId, Text.IsSha256, Accepted, ArtifactsHold, LoadPlan;
    var run := s.runs[id].run;
    InputsStay(env, s, t, run.inputs);
    ArtifactsStay(env, s, t, env.manifest(run.inputs.tool), run.artifacts);
    PlanStays(env, s, t, run.plan.id);
    AcceptanceStays(ReadersOf(env, s), ReadersOf(env, t), env.manifest(run.inputs.tool), run.termination,
                    run.artifacts, run.result);
  }
}
