/** `validate_payload` for the three versions, as its loops run. */
module AdmissionValidation {
  import opened Wrappers
  import opened AdmissionPayload
  import Text

  // The set of blockers that the checks before `n` ask for.
  function Blocking(checks: seq<Check>, n: nat): set<string>
    requires n <= |checks|
  {
    set i | 0 <= i < n && !checks[i].state.Satisfied? :: checks[i].code
  }

  lemma BlockingNext(checks: seq<Check>, n: nat)
    requires n < |checks|
    ensures Blocking(checks, n + 1) ==
            Blocking(checks, n) + (if checks[n].state.Satisfied? then {} else {checks[n].code})
  {
  }

  lemma BlockingIsUnsatisfied(checks: seq<Check>)
    requires CanonicalChecks(checks)
    ensures Elements(Unsatisfied(checks)) == Blocking(checks, |checks|)
    ensures StrictlySorted(Unsatisfied(checks))
  {
    hide ValidEvidence, Text.StrLess;
    CodesAreSorted();
    UnsatisfiedIsSorted(checks);
  }

  /** The three tests on the blocker list: as many as expected, all of them expected, strictly increasing. */
  lemma BlockerTests(blockers: seq<string>, checks: seq<Check>)
    requires CanonicalChecks(checks)
    ensures blockers == Unsatisfied(checks) <==>
            |blockers| == |Blocking(checks, |checks|)| && Elements(blockers) <= Blocking(checks, |checks|) &&
            StrictlySorted(blockers)
  {
    hide CanonicalChecks, StrictlySorted, Blocking, Unsatisfied;
    var all := Unsatisfied(checks);
    BlockingIsUnsatisfied(checks);
    SortedCount(all);
    if |blockers| == |Elements(all)| && Elements(blockers) <= Elements(all) && StrictlySorted(blockers) {
      SortedCount(blockers);
      SubsetOfSameSize(Elements(blockers), Elements(all));
      SortedListingIsUnique(blockers, all);
    }
  }

  lemma {:induction false} SubsetOfSameSize<T>(a: set<T>, b: set<T>)
    requires a <= b && |a| == |b|
    ensures a == b
  {
    if a != {} {
      var x :| x in a;
      SubsetOfSameSize(a - {x}, b - {x});
    } else {
      assert |b| == 0;
    }
  }

  // `validate_id` of a tool manifest.
  method ValidateId(id: string) returns (ok: bool)
    ensures ok <==> ValidToolId(id)
  {
    if id == "" || |id| > 64 { return false; }
    for k := 0 to |id|
      invariant forall j | 0 <= j < k :: Text.IsLower(id[j]) || Text.IsDigit(id[j]) || id[j] == '-'
    {
      assert id[k] in id;
      var b := id[k] as int;
      if !(0x61 <= b <= 0x7A || 0x30 <= b <= 0x39 || b == 0x2D) { return false; }
    }
    return id[0] != '-' && id[|id| - 1] != '-';
  }

  // The tests of `validate_common_payload` on the scope of the admission.
  method ValidateScope(p: Payload) returns (ok: bool)
    ensures ok <==> ValidScope(p)
  {
    hide Text.IsPrefixedId, Text.IsSha256, Text.Trim, ValidToolId;
    if !Text.IsPrefixedId(p.inventory.id, "qualification_") || !Text.IsSha256(p.inventory.digest) { return false; }
    var named := ValidateId(p.tool.manifestId);
    if !named || !Text.IsSha256(p.tool.manifestSha256) { return false; }
    if p.pin.toolManifestId != p.tool.manifestId || !Text.IsSha256(p.pin.pinSha256) { return false; }
    if p.operation != "trust_meter_measure" && p.operation != "phaseledger_measure" { return false; }
    if p.recorder.version == "" || Text.Trim(p.recorder.version) != p.recorder.version { return false; }
    if !Text.IsSha256(p.recorder.executableSha256) { return false; }
    if p.platform.targetOs != "windows" || p.platform.targetArch != "x86_64" ||
       p.platform.hostOs != "windows" || p.platform.hostArch != "x86_64" {
      return false;
    }
    return true;
  }

  method ValidateEvidence(refs: seq<Ref>) returns (ok: bool)
    ensures ok <==> ValidEvidence(refs)
  {
    hide Text.IsPrefixedId, Text.IsSha256;
    for k := 0 to |refs|
      invariant forall j | 0 <= j < k :: ValidRef(refs[j], "artifact_")
    {
      assert refs[k] in refs;
      if !Text.IsPrefixedId(refs[k].id, "artifact_") || !Text.IsSha256(refs[k].digest) { return false; }
    }
    return true;
  }

  /** `validate_common_payload`: the scope, the eight checks in order and the blocker list. */
  method ValidateCommon(p: Payload, rfc3339: Rfc3339) returns (ok: bool)
    ensures ok <==> Common(p, rfc3339)
  {
    hide ValidScope, ValidEvidence, Text.StrLess, Unsatisfied, ARCHIVE, EGRESS, LIMIT, JOB, LAUNCH, PATHS, PRIVATE,
      WHEELS;
    if !rfc3339(p.observedAt) { return false; }
    var scoped := ValidateScope(p);
    if !scoped { return false; }
    if p.admission.state != NotGranted || p.authority != NoAuthority { return false; }
    if |p.checks| != |CHECK_CODES| { return false; }
    var expected: set<string> := {};
    for i := 0 to |CHECK_CODES|
      invariant expected == Blocking(p.checks, i)
      invariant forall j | 0 <= j < i :: p.checks[j].code == CHECK_CODES[j] && ValidEvidence(p.checks[j].evidence)
    {
      var check := p.checks[i];
      BlockingNext(p.checks, i);
      if check.code != CHECK_CODES[i] { return false; }
      if !check.state.Satisfied? { expected := expected + {check.code}; }
      var backed := ValidateEvidence(check.evidence);
      if !backed { return false; }
    }
    BlockerTests(p.admission.blockers, p.checks);
    ok := BlockersMatch(p.admission.blockers, expected);
  }

  method BlockersMatch(blockers: seq<string>, expected: set<string>) returns (ok: bool)
    ensures ok <==> |blockers| == |expected| && Elements(blockers) <= expected && StrictlySorted(blockers)
  {
    hide Text.StrLess;
    if |blockers| != |expected| { return false; }
    if exists code | code in blockers :: code !in expected { return false; }
    var previous := None;
    for i := 0 to |blockers|
      invariant previous == if i == 0 then None else Some(blockers[i - 1])
      invariant forall j | 0 < j < i :: Text.StrLess(blockers[j - 1], blockers[j])
    {
      if previous.Some? {
        if !Text.StrLess(previous.value, blockers[i]) { return false; }
      }
      previous := Some(blockers[i]);
    }
    AdjacentIsSorted(blockers);
    return true;
  }

  // Every residual check passes the test.
  predicate ResidualsAre(checks: seq<Check>, bad: CheckState) {
    forall i | 0 <= i < |checks| :: !(checks[i].code in RESIDUAL_CODES && checks[i].state == bad)
  }

  lemma ResidualPositions(p: Payload, bad: CheckState)
    requires CanonicalChecks(p.checks)
    ensures ResidualsAre(p.checks, bad) <==> forall i | 1 <= i <= 3 :: p.checks[i].state != bad
  {
    hide ARCHIVE, EGRESS, LIMIT, JOB, LAUNCH, PATHS, PRIVATE, WHEELS, ValidEvidence;
    CodesAreSorted();
    SortedIsDistinct(CHECK_CODES);
    assert forall k | 0 <= k < 3 :: RESIDUAL_CODES[k] == CHECK_CODES[k + 1];
    forall i | 0 <= i < 8
      ensures CHECK_CODES[i] in RESIDUAL_CODES <==> 1 <= i <= 3
    {
      if 1 <= i <= 3 { assert RESIDUAL_CODES[i - 1] == CHECK_CODES[i]; }
    }
  }

  method NoResidualIs(checks: seq<Check>, bad: CheckState) returns (ok: bool)
    ensures ok <==> ResidualsAre(checks, bad)
  {
    for i := 0 to |checks|
      invariant forall j | 0 <= j < i :: !(checks[j].code in RESIDUAL_CODES && checks[j].state == bad)
    {
      if checks[i].code in RESIDUAL_CODES && checks[i].state == bad { return false; }
    }
    return true;
  }

  // A check that is not satisfied is on the blocker list, so the searches for retained blockers cannot fail.
  lemma Retained(p: Payload, rfc3339: Rfc3339, i: nat)
    requires Common(p, rfc3339) && i < 8 && !p.checks[i].state.Satisfied?
    ensures CHECK_CODES[i] in p.admission.blockers
  {
    hide ValidScope, ValidEvidence, Text.StrLess, ARCHIVE, EGRESS, LIMIT, JOB, LAUNCH, PATHS, PRIVATE, WHEELS;
    CodesAreSorted();
    UnsatisfiedIsSorted(p.checks);
    assert CHECK_CODES[i] == p.checks[i].code;
  }

  method ValidateV1(p: Payload, rfc3339: Rfc3339) returns (ok: bool)
    requires p.schema.V1?
    ensures ok <==> Admissible(p, rfc3339)
  {
    hide Common, ARCHIVE, EGRESS, LIMIT, JOB, LAUNCH, PATHS, PRIVATE, WHEELS, ResidualsAre;
    if p.source.Some? { return false; }
    var common := ValidateCommon(p, rfc3339);
    if !common { return false; }
    CommonIsCanonical(p, rfc3339);
    ResidualPositions(p, Satisfied);
    var open := NoResidualIs(p.checks, Satisfied);
    if !open { return false; }
    for i := 0 to |RESIDUAL_CODES| {
      Retained(p, rfc3339, i + 1);
      if RESIDUAL_CODES[i] !in p.admission.blockers { return false; }
    }
    return true;
  }

  method ValidateV2(p: Payload, rfc3339: Rfc3339) returns (ok: bool)
    requires p.schema.V2?
    ensures ok <==> Admissible(p, rfc3339)
  {
    hide Common, ARCHIVE, EGRESS, LIMIT, JOB, LAUNCH, PATHS, PRIVATE, WHEELS, ResidualsAre, Text.IsPrefixedId,
      Text.IsSha256;
    if p.source.None? { return false; }
    if !Text.IsPrefixedId(p.source.value.id, "admission_") || !Text.IsSha256(p.source.value.digest) { return false; }
    var common := ValidateCommon(p, rfc3339);
    if !common { return false; }
    CommonIsCanonical(p, rfc3339);
    ResidualPositions(p, NotImplemented);
    var observed := NoResidualIs(p.checks, NotImplemented);
    if !observed { return false; }
    if p.checks[1].state.Satisfied? { return false; }
    Retained(p, rfc3339, 1);
    if EGRESS !in p.admission.blockers { return false; }
    return true;
  }

  method ValidateV3(p: Payload, rfc3339: Rfc3339) returns (ok: bool)
    requires p.schema.V3?
    ensures ok <==> Admissible(p, rfc3339)
  {
    hide Common, ResidualsAre, Text.IsPrefixedId, Text.IsSha256;
    if p.source.None? { return false; }
    if !Text.IsPrefixedId(p.source.value.id, "admission_") || !Text.IsSha256(p.source.value.digest) { return false; }
    var common := ValidateCommon(p, rfc3339);
    if !common { return false; }
    CommonIsCanonical(p, rfc3339);
    ResidualPositions(p, NotImplemented);
    ok := NoResidualIs(p.checks, NotImplemented);
  }

  lemma CommonIsCanonical(p: Payload, rfc3339: Rfc3339)
    requires Common(p, rfc3339)
    ensures CanonicalChecks(p.checks)
  {
    hide CanonicalChecks;
  }

  /** `validate_payload` accepts exactly the admissible payloads. */
  method ValidatePayload(p: Payload, rfc3339: Rfc3339) returns (ok: bool)
    ensures ok <==> Admissible(p, rfc3339)
  {
    match p.schema
    case V1 => ok := ValidateV1(p, rfc3339);
    case V2 => ok := ValidateV2(p, rfc3339);
    case V3 => ok := ValidateV3(p, rfc3339);
    case Other(_) => ok := false;
  }
}
