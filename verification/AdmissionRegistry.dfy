/** The registry of execution admissions: what its records satisfy, and the verification of a record and of the
    admissions it cites. */
module AdmissionRegistry {
  import opened Wrappers
  import opened AdmissionPayload
  import Text

  // A verified inventory qualification: what an admission takes from it. `evidence` names the artifacts that the
  // proof of a check rests on.
  datatype Inventory = Inventory(reference: Ref, tool: ToolRef, pin: PinRef, operation: string, platform: Platform,
                                 evidence: map<string, seq<Ref>>)

  datatype Record = Record(schema: Schema, id: string, digest: string, payload: Payload)

  // The records on disk, by identifier. Records are written once and never replaced.
  datatype Registry = Registry(inventories: map<string, Inventory>, admissions: map<string, Record>)

  // The digest of a serialised payload, and the date parser.
  datatype Env = Env(digest: Payload -> string, rfc3339: Rfc3339)

  ghost predicate ValidEnv(env: Env) {
    forall p: Payload :: Text.IsSha256(env.digest(p))
  }

  /** What the verification of an inventory qualification guarantees. */
  predicate ValidInventory(id: string, i: Inventory) {
    && i.reference.id == id && ValidRef(i.reference, "qualification_")
    && ValidToolId(i.tool.manifestId) && Text.IsSha256(i.tool.manifestSha256)
    && i.pin.toolManifestId == i.tool.manifestId && Text.IsSha256(i.pin.pinSha256)
    && IsWindowsX64(i.platform)
    && forall code | code in i.evidence :: ValidEvidence(i.evidence[code])
  }

  // ----- verification -----

  /** The part of loading and verifying a record that looks at no other admission. */
  predicate LocallyValid(env: Env, reg: Registry, id: string) {
    && id in reg.admissions
    && var r := reg.admissions[id];
       && !r.payload.schema.Other? && r.schema == r.payload.schema && r.id == id
       && Text.IsPrefixedId(id, "admission_") && Text.IsSha256(r.digest)
       && Admissible(r.payload, env.rfc3339) && env.digest(r.payload) == r.digest
       && InventoryAgrees(reg, r.payload)
  }

  predicate InventoryAgrees(reg: Registry, p: Payload) {
    p.inventory.id in reg.inventories &&
    var i := reg.inventories[p.inventory.id];
      i.reference.digest == p.inventory.digest && i.tool.manifestId == p.tool.manifestId && i.operation == p.operation
  }

  predicate Precedes(cited: Schema, citing: Schema) {
    (cited == V1 && citing == V2) || (cited == V2 && citing == V3)
  }

  /** The demands on a cited record, after it verified itself. */
  predicate CitationHolds(citing: Payload, cited: Record) {
    citing.source.Some? && cited.digest == citing.source.value.digest &&
    Precedes(cited.payload.schema, citing.schema) &&
    cited.payload.inventory == citing.inventory && cited.payload.tool == citing.tool &&
    cited.payload.operation == citing.operation
  }

  datatype Verdict = Accepted | Rejected | StillRunning

  /** `load_verified` cut off after `fuel` nested calls. The cited record is verified before its version is looked
      at, as in the source. */
  function Verify(env: Env, reg: Registry, id: string, fuel: nat): (v: Verdict)
    ensures v.Accepted? ==> id in reg.admissions
    decreases fuel
  {
    if fuel == 0 then StillRunning
    else if !LocallyValid(env, reg, id) then Rejected
    else
      var p := reg.admissions[id].payload;
      if p.source.None? then Accepted
      else
        match Verify(env, reg, p.source.value.id, fuel - 1)
        case Accepted => if CitationHolds(p, reg.admissions[p.source.value.id]) then Accepted else Rejected
        case other => other
  }

  /** The record after `n` citations from `id`, as long as the records on the way are locally valid. */
  function Cited(env: Env, reg: Registry, id: string, n: nat): Option<string>
    decreases n
  {
    if n == 0 then Some(id)
    else if !LocallyValid(env, reg, id) || reg.admissions[id].payload.source.None? then None
    else Cited(env, reg, reg.admissions[id].payload.source.value.id, n - 1)
  }

  /** In an arbitrary registry the verification ends exactly if the citations do: it is still running after `fuel`
      calls if and only if there is a chain of `fuel` citations. */
  lemma {:induction false} RunningIffCited(env: Env, reg: Registry, id: string, fuel: nat)
    ensures Verify(env, reg, id, fuel).StillRunning? <==> Cited(env, reg, id, fuel).Some?
    decreases fuel
  {
    if fuel != 0 && id in reg.admissions && LocallyValid(env, reg, id) && reg.admissions[id].payload.source.Some? {
      RunningIffCited(env, reg, reg.admissions[id].payload.source.value.id, fuel - 1);
    }
  }

  // ----- the invariant of the registry -----

  /** The five checks that `admit` can prove are the same, evidence included. */
  predicate SameImplementable(a: seq<Check>, b: seq<Check>) {
    |a| == |b| == 8 && a[0] == b[0] && a[4..] == b[4..]
  }

  /** A version 1 record cites nothing; a later one cites a stored record of the version before it, of the same
      scope, whose five implementable checks it keeps. */
  predicate ChainHolds(reg: Registry, p: Payload) {
    p.source.Some? ==>
      var id := p.source.value.id;
      id in reg.admissions && CitationHolds(p, reg.admissions[id]) &&
      SameImplementable(p.checks, reg.admissions[id].payload.checks)
  }

  ghost predicate Sound(env: Env, reg: Registry) {
    && ValidEnv(env)
    && (forall id | id in reg.inventories :: ValidInventory(id, reg.inventories[id]))
    && (forall id | id in reg.admissions :: LocallyValid(env, reg, id) && ChainHolds(reg, reg.admissions[id].payload))
  }

  function Level(s: Schema): nat {
    match s case V2 => 1 case V3 => 2 case _ => 0
  }

  /** In a sound registry the verification of any identifier ends within three nested calls, and accepts exactly the
      stored records. */
  lemma {:induction false} SoundVerifies(env: Env, reg: Registry, id: string, fuel: nat)
    requires Sound(env, reg)
    requires fuel > (if id in reg.admissions then Level(reg.admissions[id].payload.schema) else 0)
    ensures Verify(env, reg, id, fuel) == if id in reg.admissions then Accepted else Rejected
    decreases fuel
  {
    hide Admissible, ValidInventory, SameImplementable, InventoryAgrees, ValidEnv;
    if id in reg.admissions {
      assert LocallyValid(env, reg, id);
      var p := reg.admissions[id].payload;
      if p.source.Some? {
        assert ChainHolds(reg, p);
        SoundVerifies(env, reg, p.source.value.id, fuel - 1);
      }
    }
  }

  lemma ThreeLevelsSuffice(env: Env, reg: Registry, id: string)
    requires Sound(env, reg)
    ensures Verify(env, reg, id, 3) == if id in reg.admissions then Accepted else Rejected
    ensures Cited(env, reg, id, 3) == None
  {
    SoundVerifies(env, reg, id, 3);
    RunningIffCited(env, reg, id, 3);
  }

  /** Versions: a version 3 record cites a version 2 record which cites a version 1 record, which cites nothing. The
      five implementable checks are the same in all three. */
  lemma ChainOfVersionThree(env: Env, reg: Registry, id: string)
    requires Sound(env, reg) && id in reg.admissions && reg.admissions[id].payload.schema.V3?
    ensures
      var third := reg.admissions[id].payload;
      && third.source.Some? && third.source.value.id in reg.admissions
      && var second := reg.admissions[third.source.value.id].payload;
         && second.schema.V2? && second.source.Some? && second.source.value.id in reg.admissions
         && var first := reg.admissions[second.source.value.id].payload;
            && first.schema.V1? && first.source.None?
            && SameImplementable(third.checks, second.checks) && SameImplementable(second.checks, first.checks)
            && SameImplementable(third.checks, first.checks)
            && first.inventory == second.inventory == third.inventory
  {
    hide Common, ValidInventory, InventoryAgrees;
    var third := reg.admissions[id].payload;
    assert LocallyValid(env, reg, id) && ChainHolds(reg, third);
    var second := reg.admissions[third.source.value.id].payload;
    assert LocallyValid(env, reg, third.source.value.id) && ChainHolds(reg, second);
    assert LocallyValid(env, reg, second.source.value.id);
  }

  /** Before the network proof no record is free of blockers: egress denial is open in versions 1 and 2. */
  lemma EgressStaysBlocked(env: Env, reg: Registry, id: string)
    requires Sound(env, reg) && id in reg.admissions && !reg.admissions[id].payload.schema.V3?
    ensures EGRESS in reg.admissions[id].payload.admission.blockers
  {
    hide ValidScope, ValidEvidence, ValidInventory, InventoryAgrees, Text.StrLess, ARCHIVE, EGRESS, LIMIT, JOB, LAUNCH,
      PATHS, PRIVATE, WHEELS, ChainHolds;
    var p := reg.admissions[id].payload;
    assert LocallyValid(env, reg, id);
    CodesAreSorted();
    UnsatisfiedIsSorted(p.checks);
    assert CHECK_CODES[1] == EGRESS && p.checks[1].code == EGRESS;
  }

  lemma Grows(env: Env, reg: Registry, r: Record)
    requires Sound(env, reg) && r.id !in reg.admissions
    requires var next := reg.(admissions := reg.admissions[r.id := r]);
      LocallyValid(env, next, r.id) && ChainHolds(reg, r.payload)
    ensures Sound(env, reg.(admissions := reg.admissions[r.id := r]))
  {
    hide Admissible, ValidInventory, SameImplementable, CitationHolds, ValidEnv;
    var next := reg.(admissions := reg.admissions[r.id := r]);
    forall id | id in next.admissions
      ensures LocallyValid(env, next, id) && ChainHolds(next, next.admissions[id].payload)
    {
      if id != r.id {
        assert LocallyValid(env, reg, id) && ChainHolds(reg, reg.admissions[id].payload);
      }
    }
  }
}
