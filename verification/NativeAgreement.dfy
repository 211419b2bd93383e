/** The recorder and the validator of native results agree. */
module NativeAgreement {
  import opened Wrappers
  import opened Bytes
  import opened Lists
  import opened Descriptors
  import opened NativeObservations

  /** What the validator accepts. */
  predicate Accepted(r: Readers, m: Manifest, t: Termination, artifacts: seq<Descriptor>, result: NativeResult) {
    match result
    case NotReported(reason, none) => none == [] && reason in REASONS
    case Reported(observations) =>
      t.Exited? && observations != [] && |observations| == |m.observations| && DistinctIdentities(observations) &&
      forall c | c in m.observations :: Confirmed(r, m, artifacts, observations, c)
  }

  ghost predicate AllBacked(m: Manifest, artifacts: seq<Descriptor>) {
    forall c | c in m.observations :: Backed(m, artifacts, c.role)
  }

  // ----- the projection, element by element -----

  lemma {:induction false} ProjectAllEach(r: Readers, artifacts: seq<Descriptor>, contracts: seq<Contract>)
    ensures var all := ProjectAll(r, artifacts, contracts);
      && (all.Ok? ==> |all.value| == |contracts| &&
                      forall i | 0 <= i < |contracts| :: Project(r, artifacts, contracts[i]) == Ok(all.value[i]))
      && (all.Err? ==> exists c | c in contracts :: Project(r, artifacts, c) == Err(all.error))
  {
    hide Project;
    if contracts != [] {
      ProjectAllEach(r, artifacts, contracts[1..]);
      assert forall c | c in contracts[1..] :: c in contracts;
      assert contracts[0] in contracts;
      var all := ProjectAll(r, artifacts, contracts);
      if all.Ok? {
        forall i | 0 <= i < |contracts|
          ensures Project(r, artifacts, contracts[i]) == Ok(all.value[i])
        {
          if i > 0 { assert contracts[i] == contracts[1..][i - 1]; }
        }
      }
    }
  }

  lemma ProjectionIdentity(r: Readers, artifacts: seq<Descriptor>, c: Contract)
    ensures var p := Project(r, artifacts, c);
      (p.Ok? ==> SameIdentity(p.value, c)) && (p.Err? ==> p.error in REASONS)
  {
    hide Select, WithRole;
  }

  lemma {:induction false} NoneMatching(observations: seq<Observation>, c: Contract)
    requires forall o | o in observations :: !SameIdentity(o, c)
    ensures Matching(observations, c) == []
  {
    if observations != [] {
      NoneMatching(observations[1..], c);
    }
  }

  lemma {:induction false} MatchingCount(observations: seq<Observation>, c: Contract, i: nat)
    requires DistinctIdentities(observations) && i < |observations| && SameIdentity(observations[i], c)
    ensures Matching(observations, c) == [observations[i]]
  {
    if i == 0 {
      forall o | o in observations[1..]
        ensures !SameIdentity(o, c)
      {
        var j :| 0 <= j < |observations[1..]| && observations[1..][j] == o;
        assert Identity(observations[0]) != Identity(observations[j + 1]);
      }
      NoneMatching(observations[1..], c);
    } else {
      assert Identity(observations[0]) != Identity(observations[i]);
      MatchingCount(observations[1..], c, i - 1);
    }
  }

  // ----- two duplicate-free lists of the same elements -----

  lemma {:induction false} CountAtMostOne<T>(s: seq<T>, x: T)
    requires NoRepeats(s)
    ensures multiset(s)[x] == if x in s then 1 else 0
  {
    if s != [] {
      CountAtMostOne(s[1..], x);
      assert s == [s[0]] + s[1..];
      assert multiset(s) == multiset{s[0]} + multiset(s[1..]);
      assert forall j | 0 <= j < |s[1..]| :: s[1..][j] == s[j + 1] != s[0];
    }
  }

  lemma {:induction false} SubsetOfSameLength<T>(a: seq<T>, b: seq<T>)
    requires NoRepeats(a) && NoRepeats(b) && |a| == |b| && forall x | x in a :: x in b
    ensures multiset(a) == multiset(b)
  {
    forall x: T
      ensures multiset(a)[x] <= multiset(b)[x]
    {
      CountAtMostOne(a, x);
      CountAtMostOne(b, x);
    }
    SubMultisetOfSameSize(multiset(a), multiset(b));
  }

  lemma SubMultisetOfSameSize<T>(a: multiset<T>, b: multiset<T>)
    requires |a| == |b| && forall x: T :: a[x] <= b[x]
    ensures a == b
  {
    assert b == a + (b - a);
    assert |b - a| == 0;
  }

  lemma DistinctHasNoRepeats(observations: seq<Observation>)
    requires DistinctIdentities(observations)
    ensures NoRepeats(observations)
  {
    forall i, j | 0 <= i < j < |observations|
      ensures observations[i] != observations[j]
    {
      assert Identity(observations[i]) != Identity(observations[j]);
    }
  }

  lemma PermutationKeepsIdentities(a: seq<Observation>, b: seq<Observation>)
    requires DistinctIdentities(a) && multiset(a) == multiset(b)
    ensures DistinctIdentities(b)
  {
    DistinctHasNoRepeats(a);
    forall i, j | 0 <= i < j < |b|
      ensures Identity(b[i]) != Identity(b[j])
    {
      assert b[i] in multiset(b) && b[j] in multiset(b);
      assert b[i] in multiset(a) && b[j] in multiset(a);
      assert b[i] in a && b[j] in a;
      if b[i] == b[j] {
        CountAtMostOne(a, b[i]);
        TwiceIn(b, i, j);
      }
      var k :| 0 <= k < |a| && a[k] == b[i];
      var l :| 0 <= l < |a| && a[l] == b[j];
    }
  }

  lemma TwiceIn<T>(s: seq<T>, i: nat, j: nat)
    requires i < j < |s| && s[i] == s[j]
    ensures multiset(s)[s[i]] >= 2
  {
    assert s == s[..j] + [s[j]] + s[j + 1..];
    assert s[..j][i] == s[i];
    assert multiset(s) == multiset(s[..j]) + multiset{s[j]} + multiset(s[j + 1..]);
  }

  // ----- agreement -----

  lemma ProjectionIsDistinct(r: Readers, m: Manifest, artifacts: seq<Descriptor>, all: seq<Observation>)
    requires ProjectAll(r, artifacts, m.observations) == Ok(all)
    ensures |all| == |m.observations|
    ensures DistinctIdentities(all) <==> DistinctContracts(m.observations)
  {
    hide Project;
    ProjectAllEach(r, artifacts, m.observations);
    forall i | 0 <= i < |all|
      ensures Identity(all[i]) == ContractIdentity(m.observations[i])
    {
      ProjectionIdentity(r, artifacts, m.observations[i]);
    }
  }

  lemma ConfirmedByProjection(r: Readers, m: Manifest, artifacts: seq<Descriptor>, all: seq<Observation>,
                              observations: seq<Observation>)
    requires ProjectAll(r, artifacts, m.observations) == Ok(all) && AllBacked(m, artifacts)
    requires DistinctIdentities(observations) && multiset(observations) == multiset(all)
    ensures forall c | c in m.observations :: Confirmed(r, m, artifacts, observations, c)
  {
    hide Project, Backed;
    ProjectAllEach(r, artifacts, m.observations);
    forall c | c in m.observations
      ensures Confirmed(r, m, artifacts, observations, c)
    {
      var k :| 0 <= k < |m.observations| && m.observations[k] == c;
      ProjectionIdentity(r, artifacts, c);
      assert all[k] in multiset(observations) by { assert all[k] in multiset(all); }
      var i :| 0 <= i < |observations| && observations[i] == all[k];
      MatchingCount(observations, c, i);
    }
  }

  /** With distinct observation identities in the manifest, a reported list is accepted exactly if the process exited,
      every contract is backed by one exact captured stream and the list is a permutation of what the extraction
      yields now. */
  lemma ReportedIsAcceptedIff(r: Readers, m: Manifest, t: Termination, artifacts: seq<Descriptor>,
                              observations: seq<Observation>)
    requires DistinctContracts(m.observations)
    ensures Accepted(r, m, t, artifacts, Reported(observations)) <==>
            && t.Exited? && m.observations != [] && AllBacked(m, artifacts)
            && ProjectAll(r, artifacts, m.observations).Ok?
            && multiset(observations) == multiset(ProjectAll(r, artifacts, m.observations).value)
  {
    hide Project, Backed, Matching;
    var all := ProjectAll(r, artifacts, m.observations);
    if Accepted(r, m, t, artifacts, Reported(observations)) {
      AcceptedProjects(r, m, t, artifacts, observations);
    } else if t.Exited? && m.observations != [] && AllBacked(m, artifacts) && all.Ok? &&
              multiset(observations) == multiset(all.value) {
      ProjectionIsDistinct(r, m, artifacts, all.value);
      PermutationKeepsIdentities(all.value, observations);
      assert |observations| == |multiset(observations)| == |multiset(all.value)| == |all.value|;
      ConfirmedByProjection(r, m, artifacts, all.value, observations);
    }
  }

  lemma AcceptedProjects(r: Readers, m: Manifest, t: Termination, artifacts: seq<Descriptor>,
                         observations: seq<Observation>)
    requires DistinctContracts(m.observations) && Accepted(r, m, t, artifacts, Reported(observations))
    ensures m.observations != [] && AllBacked(m, artifacts)
    ensures ProjectAll(r, artifacts, m.observations).Ok?
    ensures multiset(observations) == multiset(ProjectAll(r, artifacts, m.observations).value)
  {
    hide Project, Backed;
    ProjectAllEach(r, artifacts, m.observations);
    assert forall c | c in m.observations :: Confirmed(r, m, artifacts, observations, c);
    var all := ProjectAll(r, artifacts, m.observations).value;
    ProjectionIsDistinct(r, m, artifacts, all);
    DistinctHasNoRepeats(all);
    DistinctHasNoRepeats(observations);
    forall o | o in all
      ensures o in observations
    {
      var k :| 0 <= k < |all| && all[k] == o;
      var c := m.observations[k];
      assert c in m.observations;
      MatchingIsIn(observations, c);
      assert Matching(observations, c)[0] in Matching(observations, c);
    }
    SubsetOfSameLength(all, observations);
  }

  /** For every manifest: an accepted list is a permutation of what the extraction yields if and only if the observation
      identities of the manifest are distinct. So with two contracts of one identity every accepted list holds something
      that was not extracted. */
  lemma AcceptedIsExtractionIff(r: Readers, m: Manifest, t: Termination, artifacts: seq<Descriptor>,
                                observations: seq<Observation>)
    requires Accepted(r, m, t, artifacts, Reported(observations))
    ensures AllBacked(m, artifacts) && ProjectAll(r, artifacts, m.observations).Ok?
    ensures multiset(observations) == multiset(ProjectAll(r, artifacts, m.observations).value) <==>
            DistinctContracts(m.observations)
  {
    hide Project, Backed, Matching;
    ProjectAllEach(r, artifacts, m.observations);
    assert forall c | c in m.observations :: Confirmed(r, m, artifacts, observations, c);
    var all := ProjectAll(r, artifacts, m.observations).value;
    ProjectionIsDistinct(r, m, artifacts, all);
    if multiset(observations) == multiset(all) {
      PermutationKeepsIdentities(observations, all);
    }
    if DistinctContracts(m.observations) {
      ReportedIsAcceptedIff(r, m, t, artifacts, observations);
    }
  }

  /** What the recorder writes is accepted exactly if it reports nothing, or the manifest has distinct observation
      identities and every contract is backed. */
  lemma RecordedIsAcceptedIff(r: Readers, m: Manifest, t: Termination, artifacts: seq<Descriptor>)
    ensures Accepted(r, m, t, artifacts, Recorded(r, m, t, artifacts)) <==>
            (Recorded(r, m, t, artifacts).Reported? ==> DistinctContracts(m.observations) && AllBacked(m, artifacts))
  {
    hide Project, Backed, Matching;
    ProjectAllEach(r, artifacts, m.observations);
    match Recorded(r, m, t, artifacts)
    case NotReported(reason, none) =>
      if t.Exited? && m.observations != [] {
        var c :| c in m.observations && Project(r, artifacts, c) == Err(reason);
        ProjectionIdentity(r, artifacts, c);
      }
    case Reported(all) =>
      ProjectionIsDistinct(r, m, artifacts, all);
      if DistinctContracts(m.observations) {
        ReportedIsAcceptedIff(r, m, t, artifacts, all);
      }
  }

  // ----- the artifacts of an execution -----

  // `execute` imports at most the standard output and then the standard error of the process.
  function Streams(out: Option<Descriptor>, err: Option<Descriptor>): seq<Descriptor> {
    (if out.Some? then [out.value] else []) + (if err.Some? then [err.value] else [])
  }

  predicate CapturedAs(d: Option<Descriptor>, role: string, origin: string) {
    d.Some? ==> d.value.meta == Meta([role], "application/octet-stream", origin, "raw_stream_capture")
  }

  predicate UniquelyExact(m: Manifest, role: string) {
    |ContractsOf(m, role)| == 1 && ContractsOf(m, role)[0].bytePolicy == "exact" &&
    ContractsOf(m, role)[0].discovery == "captured_stream"
  }

  /** The native result of an execution: the extraction, replaced if the executable or the subject changed. */
  function Executed(r: Readers, m: Manifest, t: Termination, artifacts: seq<Descriptor>, intact: bool): NativeResult {
    if intact then Recorded(r, m, t, artifacts) else NotReported("contract_mismatch", [])
  }

  lemma StreamIsBacked(m: Manifest, out: Option<Descriptor>, err: Option<Descriptor>, role: string)
    requires CapturedAs(out, "native_stdout", "process_stdout") && CapturedAs(err, "native_stderr", "process_stderr")
    requires WithRole(Streams(out, err), role) != []
    ensures Backed(m, Streams(out, err), role) <==> UniquelyExact(m, role)
  {
    hide ContractsIn;
    var a := Streams(out, err);
    assert "native_stdout"[10] == 'o' && "native_stderr"[10] == 'e';
    assert out.Some? ==> (HasRole(out.value, role) <==> role == out.value.meta.roles[0] == "native_stdout");
    assert err.Some? ==> (HasRole(err.value, role) <==> role == err.value.meta.roles[0] == "native_stderr");
    OneOrTwo(out, err, role);
  }

  lemma OneArtifact(d: Descriptor, role: string)
    ensures WithRole([d], role) == if HasRole(d, role) then [d] else []
  {
    hide HasRole;
    assert [d][1..] == [];
  }

  lemma OneOrTwo(out: Option<Descriptor>, err: Option<Descriptor>, role: string)
    ensures WithRole(Streams(out, err), role) ==
            (if out.Some? && HasRole(out.value, role) then [out.value] else []) +
            (if err.Some? && HasRole(err.value, role) then [err.value] else [])
  {
    hide HasRole;
    var a := Streams(out, err);
    if |a| == 2 {
      assert a[1..] == [err.value] && [err.value][1..] == [];
      OneArtifact(err.value, role);
    } else if |a| == 1 {
      OneArtifact(a[0], role);
    }
  }

  /** On the streams that `execute` captures, with one exact captured-stream contract for every observed role and
      distinct observation identities, every native result it records is accepted on reload. */
  lemma ExecutedIsAccepted(r: Readers, m: Manifest, t: Termination, out: Option<Descriptor>, err: Option<Descriptor>,
                           intact: bool)
    requires CapturedAs(out, "native_stdout", "process_stdout") && CapturedAs(err, "native_stderr", "process_stderr")
    requires DistinctContracts(m.observations) && forall c | c in m.observations :: UniquelyExact(m, c.role)
    ensures Accepted(r, m, t, Streams(out, err), Executed(r, m, t, Streams(out, err), intact))
  {
    hide Backed, Matching, UniquelyExact, Select, CapturedAs, WithRole;
    var artifacts := Streams(out, err);
    RecordedIsAcceptedIff(r, m, t, artifacts);
    ProjectAllEach(r, artifacts, m.observations);
    if Recorded(r, m, t, artifacts).Reported? {
      forall c | c in m.observations
        ensures Backed(m, artifacts, c.role)
      {
        var k :| 0 <= k < |m.observations| && m.observations[k] == c;
        assert Project(r, artifacts, m.observations[k]).Ok?;
        StreamIsBacked(m, out, err, c.role);
      }
    }
  }

  // What an import of a captured stream found: a fresh identifier, and digest and length of the bytes.
  datatype Stream = Stream(artifactId: string, digest: Digest, byteLength: nat)

  function DescriptorOf(stream: Stream, role: string, origin: string): Descriptor {
    Descriptor(stream.artifactId, stream.digest, stream.byteLength,
               Meta([role], "application/octet-stream", origin, "raw_stream_capture"))
  }

  function DescriptorsOf(stream: Option<Stream>, role: string, origin: string): seq<Descriptor> {
    if stream.None? then [] else [DescriptorOf(stream.value, role, origin)]
  }

  /** The part of `execute` after the native process has ended: it imports the captured streams, extracts from them, and
      reports nothing if the executable or the subject changed meanwhile. What it records is accepted on reload. */
  method RecordExecution(r: Readers, m: Manifest, t: Termination, out: Option<Stream>, err: Option<Stream>,
                         nativeUnchanged: bool, subjectUnchanged: bool)
    returns (artifacts: seq<Descriptor>, result: NativeResult)
    ensures artifacts == DescriptorsOf(out, "native_stdout", "process_stdout") +
                         DescriptorsOf(err, "native_stderr", "process_stderr")
    ensures result == Executed(r, m, t, artifacts, nativeUnchanged && subjectUnchanged)
    ensures !nativeUnchanged || !subjectUnchanged ==> result == NotReported("contract_mismatch", [])
    ensures DistinctContracts(m.observations) && (forall c | c in m.observations :: UniquelyExact(m, c.role)) ==>
              Accepted(r, m, t, artifacts, result)
  {
    hide Accepted, Recorded, UniquelyExact, DistinctContracts;
    artifacts := [];
    if out.Some? {
      var meta := Meta(["native_stdout"], "application/octet-stream", "process_stdout", "raw_stream_capture");
      artifacts := artifacts + [Descriptor(out.value.artifactId, out.value.digest, out.value.byteLength, meta)];
    }
    if err.Some? {
      var meta := Meta(["native_stderr"], "application/octet-stream", "process_stderr", "raw_stream_capture");
      artifacts := artifacts + [Descriptor(err.value.artifactId, err.value.digest, err.value.byteLength, meta)];
    }
    result := ExtractNativeResult(r, m, t, artifacts);
    if !nativeUnchanged || !subjectUnchanged { result := NotReported("contract_mismatch", []); }
    ghost var x := if out.Some? then Some(DescriptorOf(out.value, "native_stdout", "process_stdout")) else None;
    ghost var y := if err.Some? then Some(DescriptorOf(err.value, "native_stderr", "process_stderr")) else None;
    assert artifacts == Streams(x, y);
    if DistinctContracts(m.observations) && forall c | c in m.observations :: UniquelyExact(m, c.role) {
      ExecutedIsAccepted(r, m, t, x, y, nativeUnchanged && subjectUnchanged);
    }
  }

  /** The failing input of `AcceptedIsExtractionIff`: with two contracts of one identity the validator accepts a list in
      which one observation is made up. */
  lemma DuplicateContractsAdmitForgery(r: Readers, d: Descriptor, forged: Observation)
    requires d.meta == Meta(["native_stdout"], "application/octet-stream", "process_stdout", "raw_stream_capture")
    requires r.bytes(d).Some?
    ensures var c := Contract("tool", "status", "native_stdout", "json", "/status");
      var m := Manifest([c, c], [ArtifactContract("native_stdout", "exact", "captured_stream")]);
      Project(r, [d], c).Ok? && Identity(forged) != ("tool", "status") ==>
        Accepted(r, m, Exited(0), [d], Reported([Project(r, [d], c).value, forged]))
  {
    var c := Contract("tool", "status", "native_stdout", "json", "/status");
    var m := Manifest([c, c], [ArtifactContract("native_stdout", "exact", "captured_stream")]);
    var p := Project(r, [d], c);
    if p.Ok? && Identity(forged) != ("tool", "status") {
      ProjectionIdentity(r, [d], c);
      hide Project;
      var observations := [p.value, forged];
      assert observations[1..] == [forged] && observations[1..][1..] == [];
      assert Matching([forged], c) == [];
      assert Matching(observations, c) == [p.value];
      assert [d][1..] == [] && m.artifacts[1..] == [];
      assert d.meta.roles[0] == "native_stdout";
      assert WithRole([d], "native_stdout") == [d];
      assert ContractsOf(m, "native_stdout") == m.artifacts;
      assert Backed(m, [d], "native_stdout");
      assert Confirmed(r, m, [d], observations, c);
    }
  }
}
