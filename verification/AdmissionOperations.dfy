/** `admit`, `prove_containment` and `prove_network`: the operations that add a record to the registry. */
module AdmissionOperations {
  import opened Wrappers
  import opened AdmissionPayload
  import opened AdmissionRegistry
  import opened AdmissionValidation
  import Text

  // The states that the containment and network proofs report.
  type Proved = s: CheckState | !s.NotImplemented? witness Failed

  datatype ContainmentProof = ContainmentProof(job: Proved, limit: Proved)
  datatype NetworkProof = NetworkProof(job: Proved, limit: Proved, egress: Proved)

  // What the operation takes from the clock, the running executable and the identifier generator.
  datatype Context = Context(now: string, recorder: Recorder, freshId: string)

  function EvidenceOf(i: Inventory, code: string): seq<Ref> {
    if code in i.evidence then i.evidence[code] else []
  }

  /** `outcome`: a proof that succeeded is satisfied with its evidence, any other is failed without. */
  function Outcome(i: Inventory, code: string, passed: set<string>): (CheckState, seq<Ref>) {
    if code in passed then (Satisfied, EvidenceOf(i, code)) else (Failed, [])
  }

  /** The checks of a version 1 record: the residual ones failed, the others as their proofs ended. */
  function FirstChecks(i: Inventory, passed: set<string>): seq<Check> {
    seq(8, k requires 0 <= k < 8 =>
      if Residual(k) then Check(CHECK_CODES[k], Failed, [])
      else var (state, evidence) := Outcome(i, CHECK_CODES[k], passed); Check(CHECK_CODES[k], state, evidence))
  }

  function FirstPayload(i: Inventory, c: Context, passed: set<string>): Payload {
    var checks := FirstChecks(i, passed);
    Payload(V1, c.now, None, i.reference, i.tool, i.pin, i.operation, c.recorder, i.platform, checks,
            AdmissionState(NotGranted, Unsatisfied(checks)), NoAuthority)
  }

  /** The checks of the next record: the residual ones as proved, without evidence, the others unchanged. */
  function NextChecks(checks: seq<Check>, egress: CheckState, limit: CheckState, job: CheckState): seq<Check> {
    seq(|checks|, k requires 0 <= k < |checks| =>
      if k == 1 then Check(EGRESS, egress, [])
      else if k == 2 then Check(LIMIT, limit, [])
      else if k == 3 then Check(JOB, job, [])
      else checks[k])
  }

  function NextPayload(source: Record, c: Context, next: Schema, checks: seq<Check>): Payload {
    source.payload.(schema := next, observedAt := c.now, source := Some(Ref(source.id, source.digest)),
      recorder := c.recorder, checks := checks, admission := AdmissionState(NotGranted, Unsatisfied(checks)))
  }

  function NewRecord(env: Env, p: Payload, id: string): Record {
    Record(p.schema, id, env.digest(p), p)
  }

  function NextRecord(env: Env, source: Record, c: Context, next: Schema, egress: Proved, limit: Proved, job: Proved)
    : (r: Record)
    ensures r.id == c.freshId
  {
    NewRecord(env, NextPayload(source, c, next, NextChecks(source.payload.checks, egress, limit, job)), c.freshId)
  }

  // The clock, the recorder and the identifier are as they should be.
  predicate ContextOk(env: Env, reg: Registry, c: Context) {
    env.rfc3339(c.now) && ValidRecorder(c.recorder) && Text.IsPrefixedId(c.freshId, "admission_") &&
    c.freshId !in reg.admissions
  }

  predicate CanAdmit(env: Env, reg: Registry, inventoryId: string, c: Context) {
    inventoryId in reg.inventories && reg.inventories[inventoryId].operation in ALLOWED_OPERATIONS &&
    ContextOk(env, reg, c)
  }

  predicate CanProve(env: Env, reg: Registry, admissionId: string, cited: Schema, c: Context) {
    admissionId in reg.admissions && reg.admissions[admissionId].payload.schema == cited && ContextOk(env, reg, c)
  }

  // One call of an operation, with what it finds outside the registry.
  datatype Operation =
    | Qualify(qualificationId: string, inventory: Inventory)
    | Admit(inventoryId: string, passed: Option<set<string>>, context: Context)
    | Contain(admissionId: string, containment: Option<ContainmentProof>, context: Context)
    | Network(admissionId: string, network: Option<NetworkProof>, context: Context)

  /** The admission that the operation returns; None if it fails or adds no admission. */
  function Added(env: Env, reg: Registry, op: Operation): Option<Record> {
    match op
    case Qualify(_, _) => None
    case Admit(id, passed, c) =>
      if passed.Some? && CanAdmit(env, reg, id, c)
      then Some(NewRecord(env, FirstPayload(reg.inventories[id], c, passed.value), c.freshId))
      else None
    case Contain(id, proof, c) =>
      if proof.Some? && CanProve(env, reg, id, V1, c)
      then Some(NextRecord(env, reg.admissions[id], c, V2, Failed, proof.value.limit, proof.value.job))
      else None
    case Network(id, proof, c) =>
      if proof.Some? && CanProve(env, reg, id, V2, c)
      then Some(NextRecord(env, reg.admissions[id], c, V3, proof.value.egress, proof.value.limit, proof.value.job))
      else None
  }

  /** The registry after the operation: the returned admission is stored, a valid inventory is recorded under an unused
      identifier, and a failed operation changes nothing. */
  function Apply(env: Env, reg: Registry, op: Operation): Registry {
    match Added(env, reg, op)
    case Some(r) => reg.(admissions := reg.admissions[r.id := r])
    case None =>
      if op.Qualify? && op.qualificationId !in reg.inventories && ValidInventory(op.qualificationId, op.inventory)
      then reg.(inventories := reg.inventories[op.qualificationId := op.inventory])
      else reg
  }

  lemma QualifyGrows(env: Env, reg: Registry, id: string, i: Inventory)
    requires Sound(env, reg) && id !in reg.inventories && ValidInventory(id, i)
    ensures Sound(env, reg.(inventories := reg.inventories[id := i]))
  {
    hide Admissible, ValidInventory, SameImplementable, CitationHolds, ValidEnv;
    var next := reg.(inventories := reg.inventories[id := i]);
    forall a | a in next.admissions
      ensures LocallyValid(env, next, a) && ChainHolds(next, next.admissions[a].payload)
    {
      assert LocallyValid(env, reg, a) && ChainHolds(reg, reg.admissions[a].payload);
    }
  }

  // ----- every payload that is built validates -----

  lemma FirstIsAdmissible(env: Env, reg: Registry, inventoryId: string, c: Context, passed: set<string>)
    requires Sound(env, reg) && inventoryId in reg.inventories
    ensures var p := FirstPayload(reg.inventories[inventoryId], c, passed);
      Admissible(p, env.rfc3339) <==>
        env.rfc3339(c.now) && ValidRecorder(c.recorder) && p.operation in ALLOWED_OPERATIONS
  {
    hide LocallyValid, ChainHolds, ARCHIVE, EGRESS, LIMIT, JOB, LAUNCH, PATHS, PRIVATE, WHEELS, ValidRef, ValidToolId,
      ValidRecorder, Text.IsSha256, IsWindowsX64, Unsatisfied, ALLOWED_OPERATIONS;
    var i := reg.inventories[inventoryId];
    assert ValidInventory(inventoryId, i);
    var checks := FirstChecks(i, passed);
    forall k | 0 <= k < 8
      ensures checks[k].code == CHECK_CODES[k] && ValidEvidence(checks[k].evidence)
    {
    }
  }

  lemma NextIsAdmissible(env: Env, reg: Registry, source: Record, c: Context, next: Schema,
                         egress: Proved, limit: Proved, job: Proved)
    requires Sound(env, reg) && source.id in reg.admissions && reg.admissions[source.id] == source
    requires (next == V2 && egress == Failed) || next == V3
    ensures var p := NextPayload(source, c, next, NextChecks(source.payload.checks, egress, limit, job));
      (Admissible(p, env.rfc3339) <==> env.rfc3339(c.now) && ValidRecorder(c.recorder)) &&
      SameImplementable(p.checks, source.payload.checks)
  {
    hide ChainHolds, ARCHIVE, EGRESS, LIMIT, JOB, LAUNCH, PATHS, PRIVATE, WHEELS, ValidToolId, ValidInventory,
      ValidRecorder, Text.IsSha256, IsWindowsX64, Unsatisfied, InventoryAgrees, ALLOWED_OPERATIONS, Text.IsPrefixedId;
    assert LocallyValid(env, reg, source.id);
    var checks := NextChecks(source.payload.checks, egress, limit, job);
    assert checks[4..] == source.payload.checks[4..];
    forall k | 0 <= k < 8
      ensures checks[k].code == CHECK_CODES[k] && ValidEvidence(checks[k].evidence)
    {
    }
  }

  lemma FirstGrows(env: Env, reg: Registry, inventoryId: string, c: Context, passed: set<string>)
    requires Sound(env, reg) && CanAdmit(env, reg, inventoryId, c)
    ensures var r := NewRecord(env, FirstPayload(reg.inventories[inventoryId], c, passed), c.freshId);
      Sound(env, reg.(admissions := reg.admissions[c.freshId := r]))
  {
    FirstIsAdmissible(env, reg, inventoryId, c, passed);
    hide Admissible, ValidRecorder, Text.IsSha256, FirstChecks;
    var r := NewRecord(env, FirstPayload(reg.inventories[inventoryId], c, passed), c.freshId);
    assert ValidInventory(inventoryId, reg.inventories[inventoryId]);
    Grows(env, reg, r);
  }

  // The next record is locally valid and cites its source.
  lemma NextStands(env: Env, reg: Registry, source: Record, c: Context, next: Schema,
                   egress: Proved, limit: Proved, job: Proved)
    requires Sound(env, reg) && CanProve(env, reg, source.id, source.payload.schema, c)
    requires reg.admissions[source.id] == source && Precedes(source.payload.schema, next)
    requires next == V2 ==> egress == Failed
    ensures var r := NextRecord(env, source, c, next, egress, limit, job);
      LocallyValid(env, reg.(admissions := reg.admissions[r.id := r]), r.id) && ChainHolds(reg, r.payload)
  {
    NextIsAdmissible(env, reg, source, c, next, egress, limit, job);
    hide Admissible, ValidRecorder, Text.IsSha256, Text.IsPrefixedId, NextChecks, SameImplementable, ValidInventory,
      Unsatisfied;
    assert LocallyValid(env, reg, source.id);
  }

  lemma NextGrows(env: Env, reg: Registry, source: Record, c: Context, next: Schema,
                  egress: Proved, limit: Proved, job: Proved)
    requires Sound(env, reg) && CanProve(env, reg, source.id, source.payload.schema, c)
    requires reg.admissions[source.id] == source && Precedes(source.payload.schema, next)
    requires next == V2 ==> egress == Failed
    ensures Sound(env, reg.(admissions := reg.admissions[c.freshId :=
                    NextRecord(env, source, c, next, egress, limit, job)]))
  {
    NextStands(env, reg, source, c, next, egress, limit, job);
    hide Sound, LocallyValid, ChainHolds, NextRecord;
    Grows(env, reg, NextRecord(env, source, c, next, egress, limit, job));
  }

  // ----- the loops that build the checks -----

  method EvaluateImplementable(i: Inventory, passed: set<string>) returns (proofs: map<string, (CheckState, seq<Ref>)>)
    ensures forall code | code in IMPLEMENTABLE_CODES :: code in proofs && proofs[code] == Outcome(i, code, passed)
  {
    var codes := ["cpython_archive_semantics", "python_launch_harness", "python_path_configuration_isolation",
                  "python_private_materialization", "wheel_record_closure"];
    assert codes == IMPLEMENTABLE_CODES;
    hide ARCHIVE, LAUNCH, PATHS, PRIVATE, WHEELS;
    proofs := map[];
    for k := 0 to |codes|
      invariant forall j | 0 <= j < k :: codes[j] in proofs && proofs[codes[j]] == Outcome(i, codes[j], passed)
    {
      var code := codes[k];
      if code in passed {
        proofs := proofs[code := (Satisfied, if code in i.evidence then i.evidence[code] else [])];
      } else {
        proofs := proofs[code := (Failed, [])];
      }
    }
  }

  lemma Partition(k: nat)
    requires k < 8
    ensures CHECK_CODES[k] in RESIDUAL_CODES <==> Residual(k)
    ensures CHECK_CODES[k] in IMPLEMENTABLE_CODES <==> !Residual(k)
  {
    hide ARCHIVE, EGRESS, LIMIT, JOB, LAUNCH, PATHS, PRIVATE, WHEELS;
    CodesAreSorted();
    SortedIsDistinct(CHECK_CODES);
    assert forall j | 0 <= j < 3 :: RESIDUAL_CODES[j] == CHECK_CODES[j + 1];
    assert forall j | 0 <= j < 5 :: IMPLEMENTABLE_CODES[j] == CHECK_CODES[if j == 0 then 0 else j + 3];
    if Residual(k) {
      assert RESIDUAL_CODES[k - 1] == CHECK_CODES[k];
    } else {
      assert IMPLEMENTABLE_CODES[if k == 0 then 0 else k - 3] == CHECK_CODES[k];
    }
  }

  // What a record says of the checks: each of the five is off the blockers exactly if its proof passed, and it then
  // names the artifacts that the inventory binds to it and otherwise none; the other three block.
  ghost predicate RecordsProofs(p: Payload, i: Inventory, passed: set<string>) {
    && (forall code | code in {ARCHIVE, LAUNCH, PATHS, PRIVATE, WHEELS} ::
          && (code !in p.admission.blockers <==> code in passed)
          && HasEvidence(p.checks, code, if code in passed && code in i.evidence then i.evidence[code] else []))
    && EGRESS in p.admission.blockers && LIMIT in p.admission.blockers && JOB in p.admission.blockers
  }

  // The checks list the code once, with these artifacts.
  ghost predicate HasEvidence(checks: seq<Check>, code: string, evidence: seq<Ref>) {
    exists k :: 0 <= k < |checks| && IsAlone(checks, k) && checks[k].code == code && checks[k].evidence == evidence
  }

  ghost predicate IsAlone(checks: seq<Check>, k: nat)
    requires k < |checks|
  {
    forall j | 0 <= j < |checks| && j != k :: checks[j].code != checks[k].code
  }

  ghost predicate InOrder(checks: seq<Check>) {
    |checks| == 8 && forall k | 0 <= k < 8 :: checks[k].code == CHECK_CODES[k]
  }

  // In the canonical order each code stands once, and blocks exactly if its check is not satisfied.
  lemma CheckAt(checks: seq<Check>, k: nat)
    requires InOrder(checks) && k < 8
    ensures CHECK_CODES[k] in Unsatisfied(checks) <==> !checks[k].state.Satisfied?
    ensures IsAlone(checks, k)
  {
    hide ARCHIVE, EGRESS, LIMIT, JOB, LAUNCH, PATHS, PRIVATE, WHEELS, Text.StrLess;
    CodesAreSorted();
    SortedIsDistinct(CHECK_CODES);
    UnsatisfiedIsSorted(checks);
  }

  lemma FirstRecordsProof(i: Inventory, c: Context, passed: set<string>, k: nat)
    requires k < 8
    ensures var p, code := FirstPayload(i, c, passed), CHECK_CODES[k];
      if Residual(k) then code in p.admission.blockers
      else (code !in p.admission.blockers <==> code in passed) &&
           HasEvidence(p.checks, code, if code in passed && code in i.evidence then i.evidence[code] else [])
  {
    hide ARCHIVE, EGRESS, LIMIT, JOB, LAUNCH, PATHS, PRIVATE, WHEELS, Unsatisfied, IsAlone;
    CheckAt(FirstPayload(i, c, passed).checks, k);
  }

  lemma FirstRecordsProofs(i: Inventory, c: Context, passed: set<string>)
    ensures RecordsProofs(FirstPayload(i, c, passed), i, passed)
  {
    hide ARCHIVE, EGRESS, LIMIT, JOB, LAUNCH, PATHS, PRIVATE, WHEELS, FirstPayload, HasEvidence;
    assert CHECK_CODES[0] == ARCHIVE && CHECK_CODES[1] == EGRESS && CHECK_CODES[2] == LIMIT && CHECK_CODES[3] == JOB;
    assert CHECK_CODES[4] == LAUNCH && CHECK_CODES[5] == PATHS && CHECK_CODES[6] == PRIVATE && CHECK_CODES[7] == WHEELS;
    FirstRecordsProof(i, c, passed, 0);
    FirstRecordsProof(i, c, passed, 1);
    FirstRecordsProof(i, c, passed, 2);
    FirstRecordsProof(i, c, passed, 3);
    FirstRecordsProof(i, c, passed, 4);
    FirstRecordsProof(i, c, passed, 5);
    FirstRecordsProof(i, c, passed, 6);
    FirstRecordsProof(i, c, passed, 7);
  }

  // What a later record says of the three residual checks: each blocks unless the proof satisfied it.
  ghost predicate RecordsResiduals(p: Payload, egress: CheckState, limit: CheckState, job: CheckState) {
    && (EGRESS in p.admission.blockers <==> egress != Satisfied)
    && (LIMIT in p.admission.blockers <==> limit != Satisfied)
    && (JOB in p.admission.blockers <==> job != Satisfied)
  }

  lemma NextRecordsResiduals(env: Env, source: Record, c: Context, next: Schema, egress: Proved, limit: Proved,
                             job: Proved)
    requires CanonicalChecks(source.payload.checks)
    ensures RecordsResiduals(NextRecord(env, source, c, next, egress, limit, job).payload, egress, limit, job)
  {
    hide ARCHIVE, EGRESS, LIMIT, JOB, LAUNCH, PATHS, PRIVATE, WHEELS, Unsatisfied, IsAlone, ValidEvidence;
    var checks := NextChecks(source.payload.checks, egress, limit, job);
    assert CHECK_CODES[1] == EGRESS && CHECK_CODES[2] == LIMIT && CHECK_CODES[3] == JOB;
    assert InOrder(checks);
    CheckAt(checks, 1);
    CheckAt(checks, 2);
    CheckAt(checks, 3);
  }

  method BuildFirstChecks(i: Inventory, passed: set<string>) returns (checks: seq<Check>)
    ensures checks == FirstChecks(i, passed)
  {
    hide ARCHIVE, EGRESS, LIMIT, JOB, LAUNCH, PATHS, PRIVATE, WHEELS;
    var proofs := EvaluateImplementable(i, passed);
    checks := [];
    for k := 0 to |CHECK_CODES|
      invariant |checks| == k
      invariant forall j | 0 <= j < k :: checks[j] == FirstChecks(i, passed)[j]
    {
      var code := CHECK_CODES[k];
      Partition(k);
      var (state, evidence) :=
        if code in RESIDUAL_CODES then (Failed, [])
        else if code in proofs then proofs[code]
        else (Failed, []);
      checks := checks + [Check(code, state, evidence)];
    }
  }

  /** The filter of the codes that are not satisfied. */
  method CollectBlockers(checks: seq<Check>) returns (blockers: seq<string>)
    ensures blockers == Unsatisfied(checks)
  {
    blockers := [];
    for k := 0 to |checks|
      invariant blockers == Unsatisfied(checks[..k])
    {
      assert checks[..k + 1][..k] == checks[..k];
      if checks[k].state != Satisfied { blockers := blockers + [checks[k].code]; }
    }
    assert checks[..|checks|] == checks;
  }

  // The match on the code of a check.
  method ReplaceResidual(check: Check, egress: CheckState, limit: CheckState, job: CheckState) returns (r: Check)
    ensures r == if check.code == EGRESS then check.(state := egress, evidence := [])
                 else if check.code == LIMIT then check.(state := limit, evidence := [])
                 else if check.code == JOB then check.(state := job, evidence := [])
                 else check
  {
    match check.code
    case "os_network_egress_denial" => return check.(state := egress, evidence := []);
    case "python_active_process_limit_one" => return check.(state := limit, evidence := []);
    case "python_creation_time_job_assignment" => return check.(state := job, evidence := []);
    case _ => return check;
  }

  lemma ResidualAt(k: nat)
    requires k < 8
    ensures CHECK_CODES[k] == EGRESS <==> k == 1
    ensures CHECK_CODES[k] == LIMIT <==> k == 2
    ensures CHECK_CODES[k] == JOB <==> k == 3
  {
    hide ARCHIVE, EGRESS, LIMIT, JOB, LAUNCH, PATHS, PRIVATE, WHEELS;
    CodesAreSorted();
    SortedIsDistinct(CHECK_CODES);
    assert CHECK_CODES[1] == EGRESS && CHECK_CODES[2] == LIMIT && CHECK_CODES[3] == JOB;
  }

  method BuildNextChecks(source: seq<Check>, egress: CheckState, limit: CheckState, job: CheckState)
    returns (checks: seq<Check>)
    requires CanonicalChecks(source)
    ensures checks == NextChecks(source, egress, limit, job)
  {
    hide ARCHIVE, EGRESS, LIMIT, JOB, LAUNCH, PATHS, PRIVATE, WHEELS, CHECK_CODES, ValidEvidence;
    ghost var goal := NextChecks(source, egress, limit, job);
    checks := source;
    for k := 0 to |checks|
      invariant |checks| == 8
      invariant forall j | 0 <= j < k :: checks[j] == goal[j]
      invariant forall j | k <= j < 8 :: checks[j] == source[j]
    {
      ResidualAt(k);
      var check := ReplaceResidual(checks[k], egress, limit, job);
      checks := checks[k := check];
    }
  }

  // What the verification of an inventory qualification checks of the fields that an admission takes over.
  method VerifyInventory(id: string, i: Inventory) returns (ok: bool)
    ensures ok <==> ValidInventory(id, i)
  {
    hide Text.IsPrefixedId, Text.IsSha256, ValidToolId, ValidEvidence;
    if i.reference.id != id || !Text.IsPrefixedId(id, "qualification_") { return false; }
    if !Text.IsSha256(i.reference.digest) || !Text.IsSha256(i.tool.manifestSha256) { return false; }
    var named := ValidateId(i.tool.manifestId);
    if !named || i.pin.toolManifestId != i.tool.manifestId || !Text.IsSha256(i.pin.pinSha256) { return false; }
    var p := i.platform;
    if p.targetOs != "windows" || p.targetArch != "x86_64" || p.hostOs != "windows" || p.hostArch != "x86_64" {
      return false;
    }
    var left := i.evidence.Keys;
    while left != {}
      invariant left <= i.evidence.Keys
      invariant forall code | code in i.evidence && code !in left :: ValidEvidence(i.evidence[code])
      decreases left
    {
      var code :| code in left;
      var backed := ValidateEvidence(i.evidence[code]);
      if !backed { return false; }
      left := left - {code};
    }
    return true;
  }

  class Registrar {
    const env: Env
    var inventories: map<string, Inventory>
    var admissions: map<string, Record>

    ghost function View(): Registry
      reads this
    {
      Registry(inventories, admissions)
    }

    ghost predicate Valid()
      reads this
    {
      Sound(env, View())
    }

    /** A workspace starts empty. */
    constructor (env: Env)
      requires ValidEnv(env)
      ensures Valid() && View() == Registry(map[], map[]) && this.env == env
    {
      this.env := env;
      this.inventories := map[];
      this.admissions := map[];
    }

    // Records an inventory qualification that passed its own verification.
    method Qualify(id: string, i: Inventory) returns (ok: bool)
      requires Valid()
      modifies this`inventories
      ensures Valid()
      ensures ok <==> id !in old(inventories) && ValidInventory(id, i)
      ensures View() == Apply(env, old(View()), Operation.Qualify(id, i))
    {
      if id in inventories { return false; }
      var valid := VerifyInventory(id, i);
      if !valid { return false; }
      QualifyGrows(env, View(), id, i);
      inventories := inventories[id := i];
      return true;
    }

    /** `load_verified`, on any registry, sound or not, in which the verification of `id` ends: the recursion terminates
        and finds the record exactly if it verifies. */
    method LoadVerified(id: string, ghost fuel: nat) returns (r: Option<Record>)
      requires !Verify(env, View(), id, fuel).StillRunning?
      ensures r == if Verify(env, View(), id, fuel).Accepted? then Some(admissions[id]) else None
      ensures r.Some? ==> r.value.id == id
      decreases fuel, 1
    {
      hide Admissible, InventoryAgrees, CitationHolds;
      if !Text.IsPrefixedId(id, "admission_") || id !in admissions { return None; }
      var record := admissions[id];
      if record.payload.schema.Other? || record.schema != record.payload.schema || record.id != id ||
         env.digest(record.payload) != record.digest {
        return None;
      }
      var ok := VerifyRecord(record, fuel);
      return if ok then Some(record) else None;
    }

    /** `verify_record` of a stored record, on any registry in which its verification ends. */
    method VerifyRecord(record: Record, ghost fuel: nat) returns (ok: bool)
      requires record.id in admissions && admissions[record.id] == record
      requires !Verify(env, View(), record.id, fuel).StillRunning?
      ensures ok <==> Verify(env, View(), record.id, fuel).Accepted?
      decreases fuel, 0
    {
      hide Common, ValidRef, Text.IsPrefixedId, Text.IsSha256;
      var p := record.payload;
      if p.schema.Other? || record.schema != p.schema { return false; }
      if !Text.IsPrefixedId(record.id, "admission_") || !Text.IsSha256(record.digest) { return false; }
      var valid := ValidatePayload(p, env.rfc3339);
      if !valid || env.digest(p) != record.digest { return false; }
      if p.inventory.id !in inventories { return false; }
      var inventory := inventories[p.inventory.id];
      if inventory.reference.digest != p.inventory.digest { return false; }
      if inventory.tool.manifestId != p.tool.manifestId || inventory.operation != p.operation { return false; }
      if p.source.Some? {
        if !p.schema.V2? && !p.schema.V3? { return false; }
        var cited := LoadVerified(p.source.value.id, fuel - 1);
        if cited.None? || cited.value.digest != p.source.value.digest { return false; }
        if cited.value.payload.schema != (if p.schema.V2? then V1 else V2) { return false; }
        if cited.value.payload.inventory != p.inventory || cited.value.payload.tool != p.tool ||
           cited.value.payload.operation != p.operation {
          return false;
        }
      }
      return true;
    }

    // Validates a built payload, writes its record under an unused identifier and verifies it.
    method Commit(p: Payload, freshId: string) returns (r: Option<Record>)
      requires Valid()
      requires Admissible(p, env.rfc3339) && Text.IsPrefixedId(freshId, "admission_") && freshId !in admissions ==>
                 Sound(env, View().(admissions := admissions[freshId := NewRecord(env, p, freshId)]))
      modifies this`admissions
      ensures Valid()
      ensures r.Some? <==>
                Admissible(p, env.rfc3339) && Text.IsPrefixedId(freshId, "admission_") && freshId !in old(admissions)
      ensures r.Some? ==> r.value == NewRecord(env, p, freshId) && admissions == old(admissions)[freshId := r.value]
      ensures r.None? ==> admissions == old(admissions)
    {
      hide Admissible, Sound, Text.IsPrefixedId;
      var valid := ValidatePayload(p, env.rfc3339);
      if !valid { return None; }
      if !Text.IsPrefixedId(freshId, "admission_") { return None; }
      if freshId in admissions { return None; }
      var record := Record(p.schema, freshId, env.digest(p), p);
      admissions := admissions[freshId := record];
      ThreeLevelsSuffice(env, View(), freshId);
      var ok := VerifyRecord(record, 3);
      return if ok then Some(record) else None;
    }

    /** `admit`. `passed` holds the implementable checks whose proofs succeed, None if a bound artifact does not
        load. */
    method Admit(inventoryId: string, passed: Option<set<string>>, c: Context) returns (r: Option<Record>)
      requires Valid()
      modifies this`admissions
      ensures Valid()
      ensures r == Added(env, old(View()), Operation.Admit(inventoryId, passed, c))
      ensures View() == Apply(env, old(View()), Operation.Admit(inventoryId, passed, c))
      ensures r.Some? ==> inventoryId in inventories && passed.Some? &&
                          RecordsProofs(r.value.payload, inventories[inventoryId], passed.value)
    {
      hide Admissible, Sound, Text.IsPrefixedId, ValidRecorder, FirstChecks, Unsatisfied, RecordsProofs;
      if inventoryId !in inventories { return None; }
      var i := inventories[inventoryId];
      if (i.operation != "trust_meter_measure" && i.operation != "phaseledger_measure") || passed.None? { return None; }
      var checks := BuildFirstChecks(i, passed.value);
      var blockers := CollectBlockers(checks);
      var p := Payload(V1, c.now, None, i.reference, i.tool, i.pin, i.operation, c.recorder, i.platform, checks,
                       AdmissionState(NotGranted, blockers), NoAuthority);
      FirstRecordsProofs(i, c, passed.value);
      FirstIsAdmissible(env, View(), inventoryId, c, passed.value);
      if CanAdmit(env, View(), inventoryId, c) { FirstGrows(env, View(), inventoryId, c, passed.value); }
      r := Commit(p, c.freshId);
    }

    /** `prove_containment` of a version 1 admission; `proof` is None if the proof run itself fails. */
    method ProveContainment(admissionId: string, proof: Option<ContainmentProof>, c: Context)
      returns (r: Option<Record>)
      requires Valid()
      modifies this`admissions
      ensures Valid()
      ensures r == Added(env, old(View()), Operation.Contain(admissionId, proof, c))
      ensures View() == Apply(env, old(View()), Operation.Contain(admissionId, proof, c))
      ensures r.Some? ==> proof.Some? &&
                          RecordsResiduals(r.value.payload, Failed, proof.value.limit, proof.value.job)
    {
      hide Sound, NextRecord, ContextOk, RecordsResiduals;
      ThreeLevelsSuffice(env, View(), admissionId);
      var source := LoadVerified(admissionId, 3);
      if source.None? || !source.value.payload.schema.V1? || proof.None? { return None; }
      r := Prove(source.value, V2, Failed, proof.value.limit, proof.value.job, c);
    }

    /** `prove_network` of a version 2 admission. */
    method ProveNetwork(admissionId: string, proof: Option<NetworkProof>, c: Context) returns (r: Option<Record>)
      requires Valid()
      modifies this`admissions
      ensures Valid()
      ensures r == Added(env, old(View()), Operation.Network(admissionId, proof, c))
      ensures View() == Apply(env, old(View()), Operation.Network(admissionId, proof, c))
      ensures r.Some? ==> proof.Some? &&
                          RecordsResiduals(r.value.payload, proof.value.egress, proof.value.limit, proof.value.job)
    {
      hide Sound, NextRecord, ContextOk, RecordsResiduals;
      ThreeLevelsSuffice(env, View(), admissionId);
      var source := LoadVerified(admissionId, 3);
      if source.None? || !source.value.payload.schema.V2? || proof.None? { return None; }
      r := Prove(source.value, V3, proof.value.egress, proof.value.limit, proof.value.job, c);
    }

    // The part that the two proofs share: check the inventory, build the next payload, commit it.
    method Prove(source: Record, next: Schema, egress: Proved, limit: Proved, job: Proved, c: Context)
      returns (r: Option<Record>)
      requires Valid() && source.id in admissions && admissions[source.id] == source
      requires Precedes(source.payload.schema, next) && (next == V2 ==> egress == Failed)
      modifies this`admissions
      ensures Valid()
      ensures r.Some? <==> ContextOk(env, old(View()), c)
      ensures r.Some? ==>
                r.value == NextRecord(env, source, c, next, egress, limit, job) &&
                admissions == old(admissions)[c.freshId := r.value] &&
                RecordsResiduals(r.value.payload, egress, limit, job)
      ensures r.None? ==> admissions == old(admissions)
    {
      NextIsAdmissible(env, View(), source, c, next, egress, limit, job);
      if ContextOk(env, View(), c) { NextGrows(env, View(), source, c, next, egress, limit, job); }
      StoredFacts(env, View(), source);
      NextRecordsResiduals(env, source, c, next, egress, limit, job);
      hide Admissible, Sound, Text.IsPrefixedId, ValidRecorder, NextChecks, Unsatisfied, CanonicalChecks,
        SameImplementable, RecordsResiduals;
      if source.payload.inventory.id !in inventories { return None; }
      if inventories[source.payload.inventory.id].reference.digest != source.payload.inventory.digest { return None; }
      var checks := BuildNextChecks(source.payload.checks, egress, limit, job);
      var blockers := CollectBlockers(checks);
      var p := source.payload.(schema := next, observedAt := c.now, source := Some(Ref(source.id, source.digest)),
        recorder := c.recorder, checks := checks, admission := AdmissionState(NotGranted, blockers));
      r := Commit(p, c.freshId);
    }
  }

  lemma StoredFacts(env: Env, reg: Registry, source: Record)
    requires Sound(env, reg) && source.id in reg.admissions && reg.admissions[source.id] == source
    ensures CanonicalChecks(source.payload.checks) && InventoryAgrees(reg, source.payload)
  {
    hide CanonicalChecks, ValidInventory, ChainHolds, ValidScope;
    assert LocallyValid(env, reg, source.id);
  }
}
