/** Python execution admissions: the payload of a record and `validate_payload`. */
module AdmissionPayload {
  import opened Wrappers
  import Bytes
  import Text

  datatype CheckState = Satisfied | NotImplemented | Failed

  // The schema versions the code knows, and any other text.
  datatype Schema = V1 | V2 | V3 | Other(name: string)

  // The only values that the two closed enumerations have.
  datatype StateValue = NotGranted
  datatype Authority = NoAuthority

  datatype Ref = Ref(id: string, digest: string)
  datatype Check = Check(code: string, state: CheckState, evidence: seq<Ref>)
  datatype ToolRef = ToolRef(manifestId: string, manifestSha256: string)
  datatype PinRef = PinRef(toolManifestId: string, pinSha256: string)
  datatype Recorder = Recorder(version: string, executableSha256: string)
  datatype Platform = Platform(targetOs: string, targetArch: string, hostOs: string, hostArch: string)
  datatype AdmissionState = AdmissionState(state: StateValue, blockers: seq<string>)

  datatype Payload = Payload(
    schema: Schema,
    observedAt: string,
    source: Option<Ref>,
    inventory: Ref,
    tool: ToolRef,
    pin: PinRef,
    operation: string,
    recorder: Recorder,
    platform: Platform,
    checks: seq<Check>,
    admission: AdmissionState,
    authority: Authority)

  // `DateTime::parse_from_rfc3339` accepts the text.
  type Rfc3339 = string -> bool

  const ARCHIVE := "cpython_archive_semantics"
  const EGRESS := "os_network_egress_denial"
  const LIMIT := "python_active_process_limit_one"
  const JOB := "python_creation_time_job_assignment"
  const LAUNCH := "python_launch_harness"
  const PATHS := "python_path_configuration_isolation"
  const PRIVATE := "python_private_materialization"
  const WHEELS := "wheel_record_closure"

  const CHECK_CODES := [ARCHIVE, EGRESS, LIMIT, JOB, LAUNCH, PATHS, PRIVATE, WHEELS]
  const RESIDUAL_CODES := [EGRESS, LIMIT, JOB]
  const IMPLEMENTABLE_CODES := [ARCHIVE, LAUNCH, PATHS, PRIVATE, WHEELS]

  const ALLOWED_OPERATIONS := ["trust_meter_measure", "phaseledger_measure"]

  // ----- the order of the codes -----

  predicate StrictlySorted(s: seq<string>) {
    forall i, j | 0 <= i < j < |s| :: Text.StrLess(s[i], s[j])
  }

  lemma Before(a: string, b: string, k: nat)
    requires k < |a| && k < |b| && a[..k] == b[..k] && a[k] < b[k]
    ensures Text.StrLess(a, b)
  {
    var x, y := Text.Codes(a), Text.Codes(b);
    assert forall i | 0 <= i < k :: a[..k][i] == a[i] && b[..k][i] == b[i];
    assert x[..k] == y[..k];
    assert Bytes.DiffersAt(x, y, k);
  }

  // Where each code first differs from the next.
  const DIFFER_AT := [0, 0, 7, 7, 7, 8, 0]

  lemma CodesAreSorted()
    ensures StrictlySorted(CHECK_CODES)
  {
    forall i | 0 < i < |CHECK_CODES|
      ensures Text.StrLess(CHECK_CODES[i - 1], CHECK_CODES[i])
    {
      Before(CHECK_CODES[i - 1], CHECK_CODES[i], DIFFER_AT[i - 1]);
    }
    AdjacentIsSorted(CHECK_CODES);
  }

  lemma {:induction false} AdjacentIsSorted(s: seq<string>)
    requires forall i | 0 < i < |s| :: Text.StrLess(s[i - 1], s[i])
    ensures StrictlySorted(s)
  {
    hide Text.StrLess;
    forall i, j | 0 <= i < j < |s|
      ensures Text.StrLess(s[i], s[j])
    {
      Reaches(s, i, j);
    }
  }

  lemma {:induction false} Reaches(s: seq<string>, i: nat, j: nat)
    requires i < j < |s| && forall k | 0 < k < |s| :: Text.StrLess(s[k - 1], s[k])
    ensures Text.StrLess(s[i], s[j])
    decreases j
  {
    hide Text.StrLess;
    if i + 1 < j {
      Reaches(s, i, j - 1);
      Text.StrTransitive(s[i], s[j - 1], s[j]);
    }
  }

  function Elements(s: seq<string>): set<string> { set x | x in s }

  lemma SortedIsDistinct(s: seq<string>)
    requires StrictlySorted(s)
    ensures forall i, j | 0 <= i < j < |s| :: s[i] != s[j]
  {
    hide Text.StrLess;
    forall i, j | 0 <= i < j < |s|
      ensures s[i] != s[j]
    {
      Text.StrTotal(s[i], s[j]);
    }
  }

  lemma {:induction false} SortedCount(s: seq<string>)
    requires StrictlySorted(s)
    ensures |Elements(s)| == |s|
  {
    hide Text.StrLess;
    SortedIsDistinct(s);
    if s != [] {
      var front, last := s[..|s| - 1], s[|s| - 1];
      SortedCount(front);
      assert Elements(s) == Elements(front) + {last};
      assert last !in front;
    }
  }

  /** A set has one strictly sorted listing. */
  lemma {:induction false} SortedListingIsUnique(a: seq<string>, b: seq<string>)
    requires StrictlySorted(a) && StrictlySorted(b) && Elements(a) == Elements(b)
    ensures a == b
  {
    hide Text.StrLess;
    SortedCount(a);
    SortedCount(b);
    SortedIsDistinct(a);
    SortedIsDistinct(b);
    if a != [] {
      assert a[0] in Elements(b) && b[0] in Elements(a);
      var i :| 0 <= i < |b| && b[i] == a[0];
      var j :| 0 <= j < |a| && a[j] == b[0];
      if i != 0 && j != 0 {
        Text.StrTransitive(b[0], b[i], b[0]);
        Text.StrTotal(b[0], b[0]);
      }
      assert a[0] == b[0];
      assert Elements(a[1..]) == Elements(a) - {a[0]};
      assert Elements(b[1..]) == Elements(b) - {b[0]};
      SortedListingIsUnique(a[1..], b[1..]);
      assert a == [a[0]] + a[1..] && b == [b[0]] + b[1..];
    }
  }

  // ----- payloads -----

  /** The codes of the checks that are not satisfied, in the order of the checks. */
  function Unsatisfied(checks: seq<Check>): seq<string> {
    if checks == [] then []
    else
      var last := checks[|checks| - 1];
      Unsatisfied(checks[..|checks| - 1]) + (if last.state.Satisfied? then [] else [last.code])
  }

  predicate ValidRef(r: Ref, prefix: string) {
    Text.IsPrefixedId(r.id, prefix) && Text.IsSha256(r.digest)
  }

  predicate ValidEvidence(refs: seq<Ref>) {
    forall r | r in refs :: ValidRef(r, "artifact_")
  }

  /** `validate_id` of a tool manifest. */
  predicate ValidToolId(id: string) {
    0 < |id| <= 64 && id[0] != '-' && id[|id| - 1] != '-' &&
    forall c | c in id :: Text.IsLower(c) || Text.IsDigit(c) || c == '-'
  }

  predicate ValidRecorder(r: Recorder) {
    r.version != [] && Text.Trim(r.version) == r.version && Text.IsSha256(r.executableSha256)
  }

  predicate IsWindowsX64(p: Platform) {
    p.targetOs == "windows" && p.targetArch == "x86_64" && p.hostOs == "windows" && p.hostArch == "x86_64"
  }

  predicate ValidScope(p: Payload) {
    && ValidRef(p.inventory, "qualification_")
    && ValidToolId(p.tool.manifestId)
    && Text.IsSha256(p.tool.manifestSha256)
    && p.pin.toolManifestId == p.tool.manifestId
    && Text.IsSha256(p.pin.pinSha256)
    && p.operation in ALLOWED_OPERATIONS
    && ValidRecorder(p.recorder)
    && IsWindowsX64(p.platform)
  }

  /** Exactly the eight checks in the canonical order, with well-formed evidence. */
  predicate CanonicalChecks(checks: seq<Check>) {
    |checks| == 8 && forall i | 0 <= i < 8 :: checks[i].code == CHECK_CODES[i] && ValidEvidence(checks[i].evidence)
  }

  predicate Common(p: Payload, rfc3339: Rfc3339) {
    rfc3339(p.observedAt) && ValidScope(p) && CanonicalChecks(p.checks) &&
    p.admission.blockers == Unsatisfied(p.checks)
  }

  // The residual checks are those at the positions 1, 2 and 3.
  predicate Residual(i: nat) { 1 <= i <= 3 }

  /** What a payload of each version is. */
  predicate Admissible(p: Payload, rfc3339: Rfc3339) {
    && Common(p, rfc3339)
    && match p.schema
       case V1 => p.source.None? && forall i | 1 <= i <= 3 :: !p.checks[i].state.Satisfied?
       case V2 => && p.source.Some? && ValidRef(p.source.value, "admission_")
                  && (forall i | 1 <= i <= 3 :: !p.checks[i].state.NotImplemented?)
                  && !p.checks[1].state.Satisfied?
       case V3 => && p.source.Some? && ValidRef(p.source.value, "admission_")
                  && forall i | 1 <= i <= 3 :: !p.checks[i].state.NotImplemented?
       case Other(_) => false
  }

  lemma {:induction false} UnsatisfiedIsSorted(checks: seq<Check>)
    requires forall i, j | 0 <= i < j < |checks| :: Text.StrLess(checks[i].code, checks[j].code)
    ensures StrictlySorted(Unsatisfied(checks))
    ensures forall code :: code in Unsatisfied(checks) <==>
              exists i :: 0 <= i < |checks| && checks[i].code == code && !checks[i].state.Satisfied?
  {
    hide Text.StrLess;
    if checks != [] {
      var n := |checks| - 1;
      var front := Unsatisfied(checks[..n]);
      UnsatisfiedIsSorted(checks[..n]);
      forall k | 0 <= k < |front|
        ensures Text.StrLess(front[k], checks[n].code)
      {
        assert front[k] in front;
        var i :| 0 <= i < n && checks[..n][i].code == front[k];
        assert Text.StrLess(checks[i].code, checks[n].code);
      }
    }
  }

  /** In a payload that validates, the blocker list is the one strictly sorted list of the unsatisfied codes. */
  lemma BlockersAreUnique(p: Payload, rfc3339: Rfc3339, codes: seq<string>)
    requires Common(p, rfc3339)
    requires StrictlySorted(codes)
    requires forall code :: code in codes <==> exists c :: c in p.checks && c.code == code && !c.state.Satisfied?
    ensures codes == p.admission.blockers
  {
    hide ValidScope, ValidEvidence, Text.StrLess;
    CodesAreSorted();
    UnsatisfiedIsSorted(p.checks);
    forall code | code in codes
      ensures code in p.admission.blockers
    {
      var c :| c in p.checks && c.code == code && !c.state.Satisfied?;
      var i :| 0 <= i < |p.checks| && p.checks[i] == c;
    }
    forall code | code in p.admission.blockers
      ensures code in codes
    {
      var i :| 0 <= i < |p.checks| && p.checks[i].code == code && !p.checks[i].state.Satisfied?;
      assert p.checks[i] in p.checks;
    }
    SortedListingIsUnique(codes, p.admission.blockers);
  }
}
