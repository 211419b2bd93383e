/** Native results: `extract_native_result` records a projection of the captured streams, `validate_native_result`
    derives it again when the run is loaded. */
module NativeObservations {
  import opened Wrappers
  import opened Bytes
  import opened Descriptors
  import Decimal
  import NativeText
  import Text
  import Utf8

  datatype Json =
    | Null
    | Bool(b: bool)
    | Number(text: string)
    | String(s: string)
    | Array(items: seq<Json>)
    | Fields(entries: seq<(string, Json)>)

  datatype Termination =
    | Exited(code: int)
    | Signaled(signal: string)
    | TimedOut(timeoutMs: nat)
    | SpawnError(errorCode: string, message: string)
    | Interrupted(reason: string)

  datatype Locator = Locator(kind: string, value: string)
  datatype Source = FromArtifact(artifactId: string, locator: Locator) | ProcessExit(field: string)
  datatype Observation = Observation(namespace: string, name: string, value: Json, source: Source, projectionOnly: bool)

  datatype NativeResult =
    | Reported(observations: seq<Observation>)
    | NotReported(reason: string, none: seq<Observation>)

  // A contract of the manifest for one observation, and one for one artifact.
  datatype Contract = Contract(namespace: string, name: string, role: string, format: string, selector: string)
  datatype ArtifactContract = ArtifactContract(role: string, bytePolicy: string, discovery: string)
  datatype Manifest = Manifest(observations: seq<Contract>, artifacts: seq<ArtifactContract>)

  // The verified bytes of a descriptor (None if they cannot be read), and strict JSON parsing followed by the pointer.
  datatype Readers = Readers(bytes: Descriptor -> Option<seq<byte>>, json: (seq<byte>, string) -> Option<Json>)

  const REASONS := {"process_not_exited", "native_result_absent", "artifact_missing", "parse_error",
                    "contract_mismatch", "unrecognized"}

  predicate HasRole(d: Descriptor, role: string) { role in d.meta.roles }

  function WithRole(artifacts: seq<Descriptor>, role: string): seq<Descriptor> {
    if artifacts == [] then []
    else (if HasRole(artifacts[0], role) then [artifacts[0]] else []) + WithRole(artifacts[1..], role)
  }

  function ContractsOf(m: Manifest, role: string): seq<ArtifactContract> {
    ContractsIn(m.artifacts, role)
  }

  function ContractsIn(contracts: seq<ArtifactContract>, role: string): seq<ArtifactContract> {
    if contracts == [] then []
    else (if contracts[0].role == role then [contracts[0]] else []) + ContractsIn(contracts[1..], role)
  }

  // ----- the projection -----

  /** The value and the locator that a contract selects in the bytes of its artifact. */
  function Select(r: Readers, c: Contract, bytes: seq<byte>): Option<(Json, Locator)> {
    if c.format == "json" then
      match r.json(bytes, c.selector)
      case None => None
      case Some(value) => Some((value, Locator("json_pointer", c.selector)))
    else if c.format == "text_prefix" then
      match NativeText.Extract(bytes, c.selector)
      case None => None
      case Some(found) =>
        Some((String(found.value),
              Locator("byte_range", Decimal.Digits(found.start) + ":" + Decimal.Digits(found.end))))
    else None
  }

  /** The observation of one contract, from the first artifact of its role. */
  function Project(r: Readers, artifacts: seq<Descriptor>, c: Contract): Result<Observation, string> {
    var sources := WithRole(artifacts, c.role);
    if sources == [] then Err("artifact_missing")
    else
      match r.bytes(sources[0])
      case None => Err("artifact_missing")
      case Some(bytes) =>
        match Select(r, c, bytes)
        case None => Err(if c.format == "json" then "parse_error" else "contract_mismatch")
        case Some((value, locator)) =>
          Ok(Observation(c.namespace, c.name, value, FromArtifact(sources[0].artifactId, locator), true))
  }

  /** The observations of all contracts, in their order; the reason of the first that fails. */
  function ProjectAll(r: Readers, artifacts: seq<Descriptor>, contracts: seq<Contract>)
    : Result<seq<Observation>, string>
  {
    if contracts == [] then Ok([])
    else
      match Project(r, artifacts, contracts[0])
      case Err(reason) => Err(reason)
      case Ok(first) =>
        match ProjectAll(r, artifacts, contracts[1..])
        case Err(reason) => Err(reason)
        case Ok(rest) => Ok([first] + rest)
  }

  function Recorded(r: Readers, m: Manifest, t: Termination, artifacts: seq<Descriptor>): NativeResult {
    if !t.Exited? then NotReported("process_not_exited", [])
    else if m.observations == [] then NotReported("native_result_absent", [])
    else
      match ProjectAll(r, artifacts, m.observations)
      case Err(reason) => NotReported(reason, [])
      case Ok(observations) => Reported(observations)
  }

  function FirstWithRole(artifacts: seq<Descriptor>, role: string): Option<Descriptor> {
    if artifacts == [] then None
    else if HasRole(artifacts[0], role) then Some(artifacts[0])
    else FirstWithRole(artifacts[1..], role)
  }

  lemma {:induction false} FirstIsHead(artifacts: seq<Descriptor>, role: string)
    ensures FirstWithRole(artifacts, role) ==
            if WithRole(artifacts, role) == [] then None else Some(WithRole(artifacts, role)[0])
  {
    if artifacts != [] {
      FirstIsHead(artifacts[1..], role);
    }
  }

  // Results after the first contracts, and the results of the rest.
  lemma {:induction false} ProjectAllSplit(r: Readers, artifacts: seq<Descriptor>, a: seq<Contract>, b: seq<Contract>)
    ensures var x, y := ProjectAll(r, artifacts, a), ProjectAll(r, artifacts, b);
      ProjectAll(r, artifacts, a + b) ==
      if x.Err? then x else if y.Err? then y else Ok(x.value + y.value)
  {
    hide Project;
    if a == [] {
      assert a + b == b;
      var y := ProjectAll(r, artifacts, b);
      if y.Ok? { assert [] + y.value == y.value; }
    } else {
      assert (a + b)[1..] == a[1..] + b;
      ProjectAllSplit(r, artifacts, a[1..], b);
      var first, x, y := Project(r, artifacts, a[0]), ProjectAll(r, artifacts, a[1..]), ProjectAll(r, artifacts, b);
      if first.Ok? && x.Ok? && y.Ok? {
        assert [first.value] + (x.value + y.value) == [first.value] + x.value + y.value;
      }
    }
  }

  /** `extract_native_result`: the loop over the contracts. */
  method ExtractNativeResult(r: Readers, m: Manifest, t: Termination, artifacts: seq<Descriptor>)
    returns (result: NativeResult)
    ensures result == Recorded(r, m, t, artifacts)
  {
    hide Project;
    if !t.Exited? { return NotReported("process_not_exited", []); }
    if |m.observations| == 0 { return NotReported("native_result_absent", []); }
    var observations := [];
    assert ProjectAll(r, artifacts, m.observations[..0]) == Ok([]);
    hide ProjectAll;
    for k := 0 to |m.observations|
      invariant ProjectAll(r, artifacts, m.observations[..k]) == Ok(observations)
    {
      TurnProjects(r, artifacts, m.observations, k);
      var one := ExtractObservation(r, artifacts, m.observations[k]);
      if one.Err? { return NotReported(one.error, []); }
      observations := observations + [one.value];
    }
    assert m.observations[..|m.observations|] == m.observations;
    return Reported(observations);
  }

  // `artifacts.iter().find(..)`: the first artifact with the role among its roles.
  method FindArtifact(artifacts: seq<Descriptor>, role: string) returns (r: Option<Descriptor>)
    ensures r == FirstWithRole(artifacts, role)
  {
    for k := 0 to |artifacts|
      invariant FirstWithRole(artifacts, role) == FirstWithRole(artifacts[k..], role)
    {
      assert artifacts[k..][0] == artifacts[k] && artifacts[k..][1..] == artifacts[k + 1..];
      if role in artifacts[k].meta.roles { return Some(artifacts[k]); }
    }
    return None;
  }

  // The match on the format of the contract, with `extract_json` and `extract_text_prefix`.
  method ExtractValue(r: Readers, c: Contract, bytes: seq<byte>) returns (x: Option<(Json, Locator)>)
    ensures x == Select(r, c, bytes)
  {
    match c.format
    case "json" =>
      var value := r.json(bytes, c.selector);
      if value.None? { return None; }
      return Some((value.value, Locator("json_pointer", c.selector)));
    case "text_prefix" =>
      var found := NativeText.ExtractTextPrefix(bytes, c.selector);
      if found.None? { return None; }
      var range := Decimal.Digits(found.value.start) + [':'] + Decimal.Digits(found.value.end);
      return Some((String(found.value.value), Locator("byte_range", range)));
    case _ => return None;
  }

  // Where a text locator points: two numbers around a colon, and the bytes from the first up to the second.
  ghost predicate PointsAt(locator: Locator, bytes: seq<byte>, part: seq<byte>) {
    && locator.kind == "byte_range"
    && var ends := Text.SplitOn(locator.value, ':');
       && |ends| == 2
       && exists start: nat, end: nat ::
            Decimal.Denotes(ends[0], start) && Decimal.Denotes(ends[1], end) &&
            NativeText.Slices(bytes, start, end, part)
  }

  /** Read back, the locator of an extracted text points at the bytes of that text; the locator of an extracted JSON
      value is the pointer that selects it. */
  lemma LocatorPointsAtValue(r: Readers, c: Contract, bytes: seq<byte>)
    requires Select(r, c, bytes).Some?
    ensures var (value, locator) := Select(r, c, bytes).value;
      if c.format == "json" then locator.kind == "json_pointer" && r.json(bytes, locator.value) == Some(value)
      else value.String? && PointsAt(locator, bytes, Utf8.Encode(value.s))
  {
    if c.format != "json" {
      var found := NativeText.Extract(bytes, c.selector).value;
      NativeText.ExtractionIsUnique(bytes, c.selector, Some(found));
      hide NativeText.Extract, Utf8.Decode, Utf8.Encode, NativeText.InLine;
      var k: nat :| NativeText.FirstMatch(NativeText.Lines(Utf8.Decode(bytes).value), c.selector, k);
      NativeText.RangeHoldsValue(bytes, c.selector, k);
      RangeReadsBack(found.start, found.end);
    }
  }

  lemma RangeReadsBack(start: nat, end: nat)
    ensures var ends := Text.SplitOn(Decimal.Digits(start) + ":" + Decimal.Digits(end), ':');
      |ends| == 2 && Decimal.Denotes(ends[0], start) && Decimal.Denotes(ends[1], end)
  {
    var a, b := Decimal.Digits(start), Decimal.Digits(end);
    hide Decimal.Digits;
    assert forall c | c in a || c in b :: Text.IsDigit(c);
    Text.SplitAfterSep(a, ':', b);
    Text.SplitSimple(b, ':');
    assert [a] + [b] == [a, b];
    assert Decimal.AllZeros([]) && a == [] + a && b == [] + b;
  }

  // One turn of the loop.
  method ExtractObservation(r: Readers, artifacts: seq<Descriptor>, c: Contract)
    returns (one: Result<Observation, string>)
    ensures one == Project(r, artifacts, c)
  {
    hide Select, WithRole, FirstWithRole;
    FirstIsHead(artifacts, c.role);
    var artifact := FindArtifact(artifacts, c.role);
    if artifact.None? { return Err("artifact_missing"); }
    var bytes := r.bytes(artifact.value);
    if bytes.None? { return Err("artifact_missing"); }
    var extracted := ExtractValue(r, c, bytes.value);
    if extracted.None? {
      return Err(if c.format == "json" then "parse_error" else "contract_mismatch");
    }
    return Ok(Observation(c.namespace, c.name, extracted.value.0,
                          FromArtifact(artifact.value.artifactId, extracted.value.1), true));
  }

  // What turn `k` adds to the results of the turns before it, and what an error in it means for all.
  lemma TurnProjects(r: Readers, artifacts: seq<Descriptor>, contracts: seq<Contract>, k: nat)
    requires k < |contracts| && ProjectAll(r, artifacts, contracts[..k]).Ok?
    ensures var before, one := ProjectAll(r, artifacts, contracts[..k]).value, Project(r, artifacts, contracts[k]);
      && (one.Ok? ==> ProjectAll(r, artifacts, contracts[..k + 1]) == Ok(before + [one.value]))
      && (one.Err? ==> ProjectAll(r, artifacts, contracts) == Err(one.error))
  {
    hide Project, ProjectAll;
    var c := contracts[k];
    ProjectAllSplit(r, artifacts, contracts[..k], [c]);
    assert contracts[..k + 1] == contracts[..k] + [c];
    ProjectAllSplit(r, artifacts, contracts[..k + 1], contracts[k + 1..]);
    assert contracts == contracts[..k + 1] + contracts[k + 1..];
    SingleProjection(r, artifacts, c);
  }

  lemma SingleProjection(r: Readers, artifacts: seq<Descriptor>, c: Contract)
    ensures ProjectAll(r, artifacts, [c]) ==
            match Project(r, artifacts, c) case Err(reason) => Err(reason) case Ok(o) => Ok([o])
  {
    assert [c][1..] == [];
    var first := Project(r, artifacts, c);
    hide Project;
    if first.Ok? { assert [first.value] + [] == [first.value]; }
  }

  // ----- the validator -----

  /** The role of the contract is one exact captured stream of the manifest and one raw process stream of the run. */
  predicate Backed(m: Manifest, artifacts: seq<Descriptor>, role: string) {
    && |ContractsOf(m, role)| == 1
    && ContractsOf(m, role)[0].bytePolicy == "exact"
    && ContractsOf(m, role)[0].discovery == "captured_stream"
    && |WithRole(artifacts, role)| == 1
    && StreamOf(role, WithRole(artifacts, role)[0].meta)
  }

  predicate StreamOf(role: string, meta: Meta) {
    ((role == "native_stdout" && meta.origin == "process_stdout") ||
     (role == "native_stderr" && meta.origin == "process_stderr")) && meta.captureMode == "raw_stream_capture"
  }

  predicate SameIdentity(o: Observation, c: Contract) { o.namespace == c.namespace && o.name == c.name }

  function Identity(o: Observation): (string, string) { (o.namespace, o.name) }
  function ContractIdentity(c: Contract): (string, string) { (c.namespace, c.name) }

  function Matching(observations: seq<Observation>, c: Contract): seq<Observation> {
    if observations == [] then []
    else (if SameIdentity(observations[0], c) then [observations[0]] else []) + Matching(observations[1..], c)
  }

  predicate DistinctIdentities(observations: seq<Observation>) {
    forall i, j | 0 <= i < j < |observations| :: Identity(observations[i]) != Identity(observations[j])
  }

  predicate DistinctContracts(contracts: seq<Contract>) {
    forall i, j | 0 <= i < j < |contracts| :: ContractIdentity(contracts[i]) != ContractIdentity(contracts[j])
  }

  // The artifact contracts of a role.
  method FilterContracts(contracts: seq<ArtifactContract>, role: string) returns (found: seq<ArtifactContract>)
    ensures found == ContractsIn(contracts, role)
  {
    found := [];
    for k := 0 to |contracts|
      invariant ContractsIn(contracts, role) == found + ContractsIn(contracts[k..], role)
    {
      assert contracts[k..][0] == contracts[k] && contracts[k..][1..] == contracts[k + 1..];
      if contracts[k].role == role { found := found + [contracts[k]]; }
    }
  }

  // The artifacts with the role among their roles.
  method FilterArtifacts(artifacts: seq<Descriptor>, role: string) returns (found: seq<Descriptor>)
    ensures found == WithRole(artifacts, role)
  {
    found := [];
    for k := 0 to |artifacts|
      invariant WithRole(artifacts, role) == found + WithRole(artifacts[k..], role)
    {
      assert artifacts[k..][0] == artifacts[k] && artifacts[k..][1..] == artifacts[k + 1..];
      if role in artifacts[k].meta.roles { found := found + [artifacts[k]]; }
    }
  }

  // The observations with the identity of the contract.
  method FilterObservations(observations: seq<Observation>, c: Contract) returns (found: seq<Observation>)
    ensures found == Matching(observations, c)
  {
    found := [];
    hide Matching;
    for k := 0 to |observations|
      invariant Matching(observations, c) == found + Matching(observations[k..], c)
    {
      NextMatching(observations, c, k);
      if observations[k].namespace == c.namespace && observations[k].name == c.name {
        found := found + [observations[k]];
      }
    }
    assert Matching(observations[|observations|..], c) == [] by { NoneLeft(observations[|observations|..], c); }
  }

  lemma NextMatching(observations: seq<Observation>, c: Contract, k: nat)
    requires k < |observations|
    ensures Matching(observations[k..], c) ==
            (if SameIdentity(observations[k], c) then [observations[k]] else []) + Matching(observations[k + 1..], c)
  {
    assert observations[k..][0] == observations[k] && observations[k..][1..] == observations[k + 1..];
  }

  lemma NoneLeft(observations: seq<Observation>, c: Contract)
    requires observations == []
    ensures Matching(observations, c) == []
  {
  }

  /** `validate_observation`: the observation of a contract is backed and is what its projection gives. */
  method ValidateObservation(r: Readers, m: Manifest, artifacts: seq<Descriptor>, c: Contract, o: Observation)
    returns (ok: bool)
    requires SameIdentity(o, c)
    ensures ok <==> Backed(m, artifacts, c.role) && Project(r, artifacts, c) == Ok(o)
  {
    hide Select, WithRole, ContractsIn;
    if !o.projectionOnly { return false; }
    if o.source.ProcessExit? { return false; }
    var contracts := FilterContracts(m.artifacts, c.role);
    if |contracts| != 1 || contracts[0].bytePolicy != "exact" || contracts[0].discovery != "captured_stream" {
      return false;
    }
    var sources := FilterArtifacts(artifacts, c.role);
    if |sources| != 1 || sources[0].artifactId != o.source.artifactId { return false; }
    var meta := sources[0].meta;
    match c.role {
      case "native_stdout" =>
        if meta.origin != "process_stdout" || meta.captureMode != "raw_stream_capture" { return false; }
      case "native_stderr" =>
        if meta.origin != "process_stderr" || meta.captureMode != "raw_stream_capture" { return false; }
      case _ => return false;
    }
    var bytes := r.bytes(sources[0]);
    if bytes.None? { return false; }
    var expected := ExtractValue(r, c, bytes.value);
    if expected.None? { return false; }
    if o.source.locator != expected.value.1 { return false; }
    if o.value != expected.value.0 { return false; }
    return true;
  }

  predicate Confirmed(r: Readers, m: Manifest, artifacts: seq<Descriptor>, observations: seq<Observation>,
                      c: Contract)
  {
    var matching := Matching(observations, c);
    |matching| == 1 && Backed(m, artifacts, c.role) && Project(r, artifacts, c) == Ok(matching[0])
  }

  lemma {:induction false} MatchingIsIn(observations: seq<Observation>, c: Contract)
    ensures forall o :: o in Matching(observations, c) <==> o in observations && SameIdentity(o, c)
  {
    if observations != [] {
      MatchingIsIn(observations[1..], c);
      assert forall o :: o in observations <==> o == observations[0] || o in observations[1..];
    }
  }

  /** `validate_native_result`. */
  method ValidateNativeResult(r: Readers, m: Manifest, t: Termination, artifacts: seq<Descriptor>, result: NativeResult)
    returns (ok: bool)
    ensures result.NotReported? ==> (ok <==> result.none == [] && result.reason in REASONS)
    ensures result.Reported? ==>
              (ok <==> t.Exited? && result.observations != [] && |result.observations| == |m.observations| &&
                       DistinctIdentities(result.observations) &&
                       forall c | c in m.observations :: Confirmed(r, m, artifacts, result.observations, c))
  {
    hide Backed, Project, Matching;
    match result
    case NotReported(reason, none) =>
      if none != [] { return false; }
      match reason {
        case "process_not_exited" => return true;
        case "native_result_absent" => return true;
        case "artifact_missing" => return true;
        case "parse_error" => return true;
        case "contract_mismatch" => return true;
        case "unrecognized" => return true;
        case _ => return false;
      }
    case Reported(observations) =>
      if !t.Exited? { return false; }
      if |observations| == 0 || |observations| != |m.observations| { return false; }
      var identities: set<(string, string)> := {};
      for k := 0 to |observations|
        invariant identities == set i | 0 <= i < k :: Identity(observations[i])
        invariant DistinctIdentities(observations[..k])
      {
        var identity := (observations[k].namespace, observations[k].name);
        if identity in identities {
          var i :| 0 <= i < k && Identity(observations[i]) == Identity(observations[k]);
          return false;
        }
        identities := identities + {identity};
      }
      assert observations[..|observations|] == observations;
      for k := 0 to |m.observations|
        invariant forall j | 0 <= j < k :: Confirmed(r, m, artifacts, observations, m.observations[j])
      {
        var c := m.observations[k];
        assert c in m.observations;
        var matching := FilterObservations(observations, c);
        if |matching| == 0 { return false; }
        if |matching| > 1 { return false; }
        MatchingIsIn(observations, c);
        assert matching[0] in matching;
        var valid := ValidateObservation(r, m, artifacts, c, matching[0]);
        if !valid { return false; }
      }
      return true;
  }
}
