/** Runs of the admission operations: what holds in every registry they reach, and a registry they do not reach in
    which verification has no end. */
module AdmissionRuns {
  import opened Wrappers
  import opened AdmissionPayload
  import opened AdmissionRegistry
  import opened AdmissionOperations
  import Text

  function Run(env: Env, reg: Registry, ops: seq<Operation>): Registry {
    if ops == [] then reg else Apply(env, Run(env, reg, ops[..|ops| - 1]), ops[|ops| - 1])
  }

  lemma ApplyIsSound(env: Env, reg: Registry, op: Operation)
    requires Sound(env, reg)
    ensures Sound(env, Apply(env, reg, op))
    ensures Added(env, reg, op).Some? ==> Added(env, reg, op).value.id !in reg.admissions
  {
    hide Sound, ContextOk, NextPayload, FirstPayload, NextChecks;
    FreshId(env, reg, op);
    match op
    case Qualify(id, i) =>
      if id !in reg.inventories && ValidInventory(id, i) { QualifyGrows(env, reg, id, i); }
    case Admit(id, passed, c) =>
      if passed.Some? && CanAdmit(env, reg, id, c) { FirstGrows(env, reg, id, c, passed.value); }
    case Contain(id, proof, c) =>
      if proof.Some? && CanProve(env, reg, id, V1, c) {
        StoredUnderItsId(env, reg, id);
        NextGrows(env, reg, reg.admissions[id], c, V2, Failed, proof.value.limit, proof.value.job);
      }
    case Network(id, proof, c) =>
      if proof.Some? && CanProve(env, reg, id, V2, c) {
        StoredUnderItsId(env, reg, id);
        NextGrows(env, reg, reg.admissions[id], c, V3, proof.value.egress, proof.value.limit, proof.value.job);
      }
  }

  lemma FreshId(env: Env, reg: Registry, op: Operation)
    ensures Added(env, reg, op).Some? ==> Added(env, reg, op).value.id !in reg.admissions
  {
  }

  lemma StoredUnderItsId(env: Env, reg: Registry, id: string)
    requires Sound(env, reg) && id in reg.admissions
    ensures reg.admissions[id].id == id
  {
    hide Admissible, ValidInventory, ChainHolds;
    assert LocallyValid(env, reg, id);
  }

  /** Every run keeps the registry sound, and no stored record is ever changed or removed. */
  lemma {:induction false} RunIsSound(env: Env, reg: Registry, ops: seq<Operation>)
    requires Sound(env, reg)
    ensures Sound(env, Run(env, reg, ops))
    ensures forall id | id in reg.inventories ::
              id in Run(env, reg, ops).inventories && Run(env, reg, ops).inventories[id] == reg.inventories[id]
    ensures forall id | id in reg.admissions ::
              id in Run(env, reg, ops).admissions && Run(env, reg, ops).admissions[id] == reg.admissions[id]
  {
    hide Sound, Added;
    if ops != [] {
      RunIsSound(env, reg, ops[..|ops| - 1]);
      ApplyIsSound(env, Run(env, reg, ops[..|ops| - 1]), ops[|ops| - 1]);
    }
  }

  /** From an empty registry, whatever the operations and however often: every stored record has an admissible payload
      that is not granted, and verifies within three nested calls. */
  lemma ReachableRecordsVerify(env: Env, ops: seq<Operation>, id: string)
    requires ValidEnv(env)
    ensures var reg := Run(env, Registry(map[], map[]), ops);
      && Verify(env, reg, id, 3) == (if id in reg.admissions then Accepted else Rejected)
      && (id in reg.admissions ==> Admissible(reg.admissions[id].payload, env.rfc3339)
                                   && reg.admissions[id].payload.admission.state == NotGranted)
  {
    var start := Registry(map[], map[]);
    assert Sound(env, start);
    RunIsSound(env, start, ops);
    var reg := Run(env, start, ops);
    ThreeLevelsSuffice(env, reg, id);
    hide Run, Admissible, ValidInventory, ChainHolds, Verify;
    assert id in reg.admissions ==> LocallyValid(env, reg, id);
  }

  /** A stored admission keeps verifying after any further operations. */
  lemma StoredRecordsKeepVerifying(env: Env, reg: Registry, ops: seq<Operation>, id: string)
    requires Sound(env, reg) && id in reg.admissions
    ensures Verify(env, Run(env, reg, ops), id, 3) == Accepted
    ensures Run(env, reg, ops).admissions[id] == reg.admissions[id]
  {
    RunIsSound(env, reg, ops);
    ThreeLevelsSuffice(env, Run(env, reg, ops), id);
  }

  // ----- what a stored record says of the proofs -----

  /** The record that citations lead back to; two of them are enough in a sound registry. */
  function Root(reg: Registry, id: string, steps: nat := 2): string
    decreases steps
  {
    if steps == 0 || id !in reg.admissions || reg.admissions[id].payload.source.None? then id
    else Root(reg, reg.admissions[id].payload.source.value.id, steps - 1)
  }

  // The two records say the same of a check that `admit` can prove.
  ghost predicate AgreeOn(p: Payload, q: Payload, k: nat)
    requires k < 8
  {
    |p.checks| == 8 && |q.checks| == 8 && p.checks[k] == q.checks[k] &&
    (CHECK_CODES[k] in p.admission.blockers <==> CHECK_CODES[k] in q.admission.blockers)
  }

  lemma StoredInOrder(env: Env, reg: Registry, id: string)
    requires Sound(env, reg) && id in reg.admissions
    ensures var p := reg.admissions[id].payload;
      InOrder(p.checks) && p.admission.blockers == Unsatisfied(p.checks) && ChainHolds(reg, p) &&
      (p.source.None? ==> p.schema.V1?)
  {
    hide ValidScope, ValidInventory, ChainHolds, ValidEvidence, InventoryAgrees, Unsatisfied;
    assert LocallyValid(env, reg, id);
  }

  // A record agrees with the one that it cites, which is of a lower version.
  lemma CitedAgrees(env: Env, reg: Registry, id: string, k: nat)
    requires Sound(env, reg) && id in reg.admissions && k < 8 && !Residual(k)
    requires reg.admissions[id].payload.source.Some?
    ensures var p := reg.admissions[id].payload;
      && p.source.value.id in reg.admissions
      && Level(reg.admissions[p.source.value.id].payload.schema) < Level(p.schema)
      && AgreeOn(p, reg.admissions[p.source.value.id].payload, k)
  {
    StoredInOrder(env, reg, id);
    var p := reg.admissions[id].payload;
    StoredInOrder(env, reg, p.source.value.id);
    hide Sound, Unsatisfied, ARCHIVE, EGRESS, LIMIT, JOB, LAUNCH, PATHS, PRIVATE, WHEELS, InOrder;
    var q := reg.admissions[p.source.value.id].payload;
    CheckAt(p.checks, k);
    CheckAt(q.checks, k);
    assert k >= 4 ==> p.checks[k] == p.checks[4..][k - 4] && q.checks[k] == q.checks[4..][k - 4];
  }

  lemma AgreeTwice(p: Payload, q: Payload, r: Payload, k: nat)
    requires k < 8 && AgreeOn(p, q, k) && AgreeOn(q, r, k)
    ensures AgreeOn(p, r, k)
  {
  }

  lemma UncitingIsFirst(env: Env, reg: Registry, id: string, k: nat)
    requires Sound(env, reg) && id in reg.admissions && k < 8 && reg.admissions[id].payload.source.None?
    ensures reg.admissions[id].payload.schema.V1?
    ensures AgreeOn(reg.admissions[id].payload, reg.admissions[id].payload, k)
  {
    StoredInOrder(env, reg, id);
    hide Sound;
  }

  lemma {:induction false} RootAgrees(env: Env, reg: Registry, id: string, k: nat, steps: nat)
    requires Sound(env, reg) && id in reg.admissions && k < 8 && !Residual(k)
    requires Level(reg.admissions[id].payload.schema) <= steps
    ensures var root := Root(reg, id, steps);
      root in reg.admissions && reg.admissions[root].payload.schema.V1? &&
      AgreeOn(reg.admissions[id].payload, reg.admissions[root].payload, k)
    decreases steps
  {
    hide Sound, Level, AgreeOn;
    var p := reg.admissions[id].payload;
    if p.source.Some? {
      CitedAgrees(env, reg, id, k);
      assert Level(p.schema) >= 1;
      RootAgrees(env, reg, p.source.value.id, k, steps - 1);
      AgreeTwice(p, reg.admissions[p.source.value.id].payload,
        reg.admissions[Root(reg, p.source.value.id, steps - 1)].payload, k);
    } else {
      UncitingIsFirst(env, reg, id, k);
    }
  }

  // Operation `k` of the run is the one that stored the record.
  ghost predicate StoredBy(env: Env, ops: seq<Operation>, k: nat, r: Record) {
    k < |ops| && Added(env, Run(env, Registry(map[], map[]), ops[..k]), ops[k]) == Some(r)
  }

  lemma {:induction false} WasStored(env: Env, ops: seq<Operation>, id: string) returns (k: nat)
    requires id in Run(env, Registry(map[], map[]), ops).admissions
    ensures StoredBy(env, ops, k, Run(env, Registry(map[], map[]), ops).admissions[id])
  {
    hide Added;
    var n := |ops| - 1;
    var added := Added(env, Run(env, Registry(map[], map[]), ops[..n]), ops[n]);
    if added.Some? && added.value.id == id {
      k := n;
    } else {
      k := WasStored(env, ops[..n], id);
      assert ops[..n][..k] == ops[..k];
    }
  }

  /** Version 1 records come from admissions, and say what the proofs of that admission showed. */
  lemma StoredFirst(env: Env, ops: seq<Operation>, k: nat, r: Record)
    requires StoredBy(env, ops, k, r) && r.payload.schema.V1?
    ensures ops[k].Admit? && ops[k].passed.Some?
    ensures var before := Run(env, Registry(map[], map[]), ops[..k]);
      ops[k].inventoryId in before.inventories &&
      RecordsProofs(r.payload, before.inventories[ops[k].inventoryId], ops[k].passed.value)
  {
    hide Run, RecordsProofs, ContextOk, FirstChecks, NextChecks;
    var before := Run(env, Registry(map[], map[]), ops[..k]);
    if ops[k].Admit? {
      FirstRecordsProofs(before.inventories[ops[k].inventoryId], ops[k].context, ops[k].passed.value);
    }
  }

  // The record says of the five checks what the proofs of an admission of this inventory showed.
  ghost predicate TellsProofs(p: Payload, i: Inventory, passed: set<string>) {
    forall code | code in {ARCHIVE, LAUNCH, PATHS, PRIVATE, WHEELS} ::
      (code !in p.admission.blockers <==> code in passed) &&
      HasEvidence(p.checks, code, if code in passed && code in i.evidence then i.evidence[code] else [])
  }

  // The record tells what the proofs of admission `k` of the run showed.
  ghost predicate TellsProofsOf(env: Env, ops: seq<Operation>, k: nat, p: Payload)
    requires k < |ops|
  {
    && ops[k].Admit? && ops[k].passed.Some?
    && var before := Run(env, Registry(map[], map[]), ops[..k]);
       ops[k].inventoryId in before.inventories &&
       TellsProofs(p, before.inventories[ops[k].inventoryId], ops[k].passed.value)
  }

  /** In every run, for a stored record of any version: the record that it goes back to was stored by an admission, and
      each of the five checks is off the record's blockers, with the artifacts that the inventory binds to it, exactly
      if its proof passed at that admission. */
  lemma BlockersGoBackToProofs(env: Env, ops: seq<Operation>, id: string)
    requires ValidEnv(env) && id in Run(env, Registry(map[], map[]), ops).admissions
    ensures var reg := Run(env, Registry(map[], map[]), ops);
      && Root(reg, id) in reg.admissions
      && (exists k :: StoredBy(env, ops, k, reg.admissions[Root(reg, id)]))
      && forall k | StoredBy(env, ops, k, reg.admissions[Root(reg, id)]) ::
           TellsProofsOf(env, ops, k, reg.admissions[id].payload)
  {
    RunIsSound(env, Registry(map[], map[]), ops);
    var reg := Run(env, Registry(map[], map[]), ops);
    hide Sound, Run, Root, TellsProofs, RecordsProofs, Unsatisfied, StoredBy, TellsProofsOf;
    RootIsFirst(env, reg, id);
    var root := Root(reg, id);
    var at := WasStored(env, ops, root);
    forall k | StoredBy(env, ops, k, reg.admissions[root])
      ensures TellsProofsOf(env, ops, k, reg.admissions[id].payload)
    {
      TellsProofsOfRoot(env, ops, reg, id, k);
    }
  }

  lemma RootIsFirst(env: Env, reg: Registry, id: string)
    requires Sound(env, reg) && id in reg.admissions
    ensures Root(reg, id) in reg.admissions && reg.admissions[Root(reg, id)].payload.schema.V1?
  {
    AtMostTwo(reg.admissions[id].payload.schema);
    RootAgrees(env, reg, id, 0, 2);
  }

  lemma TellsProofsOfRoot(env: Env, ops: seq<Operation>, reg: Registry, id: string, k: nat)
    requires Sound(env, reg) && id in reg.admissions && Root(reg, id) in reg.admissions
    requires StoredBy(env, ops, k, reg.admissions[Root(reg, id)])
    ensures TellsProofsOf(env, ops, k, reg.admissions[id].payload)
  {
    RootIsFirst(env, reg, id);
    StoredFirst(env, ops, k, reg.admissions[Root(reg, id)]);
    hide Sound, Run, Root, TellsProofs, RecordsProofs, Unsatisfied, Added;
    var before := Run(env, Registry(map[], map[]), ops[..k]);
    TellsAsRoot(env, reg, id, before.inventories[ops[k].inventoryId], ops[k].passed.value);
  }

  lemma TellsAsRoot(env: Env, reg: Registry, id: string, i: Inventory, passed: set<string>)
    requires Sound(env, reg) && id in reg.admissions && Root(reg, id) in reg.admissions
    requires RecordsProofs(reg.admissions[Root(reg, id)].payload, i, passed)
    ensures TellsProofs(reg.admissions[id].payload, i, passed)
  {
    hide Sound, ARCHIVE, EGRESS, LIMIT, JOB, LAUNCH, PATHS, PRIVATE, WHEELS, HasEvidence, Root;
    assert CHECK_CODES[0] == ARCHIVE && CHECK_CODES[4] == LAUNCH && CHECK_CODES[5] == PATHS;
    assert CHECK_CODES[6] == PRIVATE && CHECK_CODES[7] == WHEELS;
    TellsOne(env, reg, id, 0, i, passed);
    TellsOne(env, reg, id, 4, i, passed);
    TellsOne(env, reg, id, 5, i, passed);
    TellsOne(env, reg, id, 6, i, passed);
    TellsOne(env, reg, id, 7, i, passed);
  }

  // The record says of check `k` what its proof showed.
  ghost predicate TellsProof(p: Payload, i: Inventory, passed: set<string>, k: nat)
    requires k < 8
  {
    var code := CHECK_CODES[k];
    (code !in p.admission.blockers <==> code in passed) &&
    HasEvidence(p.checks, code, if code in passed && code in i.evidence then i.evidence[code] else [])
  }

  lemma TellsOne(env: Env, reg: Registry, id: string, k: nat, i: Inventory, passed: set<string>)
    requires Sound(env, reg) && id in reg.admissions && k < 8 && !Residual(k)
    requires Root(reg, id) in reg.admissions && TellsProof(reg.admissions[Root(reg, id)].payload, i, passed, k)
    ensures TellsProof(reg.admissions[id].payload, i, passed, k)
  {
    var root := Root(reg, id);
    AtMostTwo(reg.admissions[id].payload.schema);
    RootAgrees(env, reg, id, k, 2);
    StoredInOrder(env, reg, id);
    StoredInOrder(env, reg, root);
    hide Sound, ARCHIVE, EGRESS, LIMIT, JOB, LAUNCH, PATHS, PRIVATE, WHEELS, Unsatisfied, Root, ChainHolds;
    CheckAt(reg.admissions[id].payload.checks, k);
    CheckAt(reg.admissions[root].payload.checks, k);
  }

  lemma AtMostTwo(s: Schema)
    ensures Level(s) <= 2
  {
  }

  // ----- a registry that no run reaches -----

  const ZEROS := seq(32, _ => '0')
  const SHA := seq(64, _ => '0')

  // A version 2 payload that cites the admission `self`, whatever that is.
  function Citing(self: string, now: string): Payload {
    var checks := seq(8, k requires 0 <= k < 8 => Check(CHECK_CODES[k], Failed, []));
    Payload(V2, now, Some(Ref(self, SHA)), Ref("qualification_" + ZEROS, SHA), ToolRef("tool", SHA), PinRef("tool",
        SHA),
            "trust_meter_measure", Recorder("1", SHA), Platform("windows", "x86_64", "windows", "x86_64"), checks,
            AdmissionState(NotGranted, Unsatisfied(checks)), NoAuthority)
  }

  /** A well-formed record that cites itself. */
  function SelfCiting(env: Env, now: string): Registry {
    var self := "admission_" + ZEROS;
    var p := Citing(self, now);
    var i := Inventory(p.inventory, p.tool, p.pin, p.operation, p.platform, map[]);
    Registry(map[p.inventory.id := i], map[self := Record(V2, self, env.digest(p), p)])
  }

  lemma PrefixedZeros(prefix: string)
    ensures Text.IsPrefixedId(prefix + ZEROS, prefix)
  {
  }

  lemma CitingIsAdmissible(env: Env, now: string)
    requires env.rfc3339(now)
    ensures Admissible(Citing("admission_" + ZEROS, now), env.rfc3339)
  {
    PrefixedZeros("admission_");
    PrefixedZeros("qualification_");
    hide Text.IsPrefixedId, Unsatisfied, ARCHIVE, EGRESS, LIMIT, JOB, LAUNCH, PATHS, PRIVATE, WHEELS;
    assert "trust_meter_measure" == ALLOWED_OPERATIONS[0];
    assert Text.TrimStart("1") == "1" && Text.Trim("1") == "1";
  }

  /** Because the cited record is verified before its version is compared, a record that cites itself is verified for
      ever, whatever the digest function. */
  lemma {:induction false} SelfCitationNeverEnds(env: Env, now: string, fuel: nat)
    requires ValidEnv(env) && env.rfc3339(now)
    ensures Verify(env, SelfCiting(env, now), "admission_" + ZEROS, fuel) == StillRunning
    decreases fuel
  {
    CitingIsAdmissible(env, now);
    PrefixedZeros("admission_");
    hide Admissible, Text.IsPrefixedId, Text.IsSha256, Text.Trim;
    var reg := SelfCiting(env, now);
    assert LocallyValid(env, reg, "admission_" + ZEROS);
    if fuel != 0 {
      SelfCitationNeverEnds(env, now, fuel - 1);
    }
  }
}
