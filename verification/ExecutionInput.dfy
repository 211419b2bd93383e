/** Reading one verified object, and copying one into the private execution root of a plan: `read_verified_file`,
    `materialize_artifact_execution_input` and `rollback_artifact_execution_root`. Reads and writes move any number
    of bytes at a time and, where faults are allowed, any call may fail; `failed` says whether one did. */
module ExecutionInput {
  import opened Wrappers
  import opened Bytes
  import Descriptors
  import Text

  // A file as an open handle sees it: its bytes and its link count.
  datatype Object = Object(bytes: seq<byte>, links: nat)

  // What the descriptor of an artifact says about its object.
  datatype Identity = Identity(digest: Digest, length: nat)

  /** The checks of the plan id and the descriptor that come first. */
  predicate Admitted(plan: string, d: Descriptors.Descriptor) {
    Text.IsPrefixedId(plan, "plan_") && Text.IsPrefixedId(d.artifactId, "artifact_") && |d.digest| == 32 &&
    Descriptors.ValidDescriptor(d)
  }

  predicate Matches(hash: Hash, id: Identity, bytes: seq<byte>) {
    hash(bytes) == id.digest && |bytes| == id.length
  }

  // Some number of the bytes that are left, at least one: what a `read` into a 64 KiB buffer returns.
  method ReadSome(left: nat) returns (n: nat)
    requires 0 < left
    ensures 0 < n <= left && n <= 0x1_0000
  {
    n :| 0 < n <= left && n <= 0x1_0000;
  }

  datatype ReadError = Rejected | IoFailed

  /** `read_verified_file`: the bytes are returned exactly when the file has one link and is the described object. */
  method ReadVerifiedFile(hash: Hash, stored: Option<Object>, id: Identity, faults: bool)
    returns (r: Result<seq<byte>, ReadError>, ghost failed: bool)
    ensures failed ==> faults
    ensures r.Ok? <==> !failed && stored.Some? && stored.value.links == 1 && Matches(hash, id, stored.value.bytes)
    ensures r.Ok? ==> r.value == stored.value.bytes
  {
    failed := false;
    if stored.None? || stored.value.links != 1 { return Err(Rejected), failed; }
    var file := stored.value.bytes;
    if |file| != id.length { return Err(Rejected), failed; }
    var bytes: seq<byte> := [];
    ghost var absorbed: seq<byte> := [];
    var length := 0;
    while length < |file|
      invariant 0 <= length <= |file| && bytes == file[..length] && absorbed == file[..length] && !failed
    {
      var fault: bool := *;
      failed := failed || (fault && faults);
      if fault && faults { return Err(IoFailed), failed; }
      var read := ReadSome(|file| - length);
      var next := length + read;
      if next > id.length { return Err(Rejected), failed; }
      absorbed := absorbed + file[length..next];
      bytes := bytes + file[length..next];
      length := next;
    }
    assert bytes == file && absorbed == bytes;
    if length != id.length || hash(bytes) != id.digest { return Err(Rejected), failed; }
    return Ok(bytes), failed;
  }

  // Why a materialisation failed; `rolledBack` says whether the rollback removed what it had created.
  datatype MaterializeError = MaterializeError(rolledBack: bool)

  class Executions {
    var roots: map<string, map<string, seq<byte>>>

    constructor ()
      ensures roots == map[]
    {
      roots := map[];
    }

    /** Either the plan has a new root that holds exactly one file `input` with the described bytes, or the roots are
        as they were. Only when the rollback itself fails does anything remain, and then only in a root that was not
        there before. It succeeds exactly when no call fails, plan id and descriptor are valid, the object is the
        described one, under one link, and the plan has no root yet. */
    method MaterializeArtifactExecutionInput(hash: Hash, plan: string, d: Descriptors.Descriptor,
                                             stored: Option<Object>, faults: bool)
      returns (r: Result<string, MaterializeError>, ghost failed: bool)
      modifies this
      ensures r.Ok? ==>
        && Admitted(plan, d) && plan !in old(roots) && stored.Some? && stored.value.links == 1
        && Matches(hash, Identity(d.digest, d.byteLength), stored.value.bytes)
        && r.value == "input" && roots == old(roots)[plan := map["input" := stored.value.bytes]]
      ensures r.Err? && r.error.rolledBack ==> roots == old(roots)
      ensures r.Err? && !r.error.rolledBack ==> faults && plan !in old(roots) && roots - {plan} == old(roots)
      ensures failed ==> faults
      ensures r.Ok? <==>
        !failed && Admitted(plan, d) && plan !in old(roots) && stored.Some? && stored.value.links == 1 &&
        Matches(hash, Identity(d.digest, d.byteLength), stored.value.bytes)
    {
      failed := false;
      hide Descriptors.ValidDescriptor, Text.IsPrefixedId;
      if !Text.IsPrefixedId(plan, "plan_") { return Err(MaterializeError(true)), failed; }
      if !Text.IsPrefixedId(d.artifactId, "artifact_") { return Err(MaterializeError(true)), failed; }
      if |d.digest| != 32 { return Err(MaterializeError(true)), failed; }
      var valid := Descriptors.ValidateDescriptor(d);
      if !valid { return Err(MaterializeError(true)), failed; }
      if stored.None? || stored.value.links != 1 { return Err(MaterializeError(true)), failed; }
      var source, id := stored.value.bytes, Identity(d.digest, d.byteLength);
      if |source| != id.length { return Err(MaterializeError(true)), failed; }
      if plan in roots { return Err(MaterializeError(true)), failed; }
      roots := roots[plan := map[]];
      var ok;
      ok, failed := FillRoot(hash, plan, source, id, faults);
      if ok { return Ok("input"), failed; }
      var rolledBack, _ := RollbackRoot(plan, faults);
      assert rolledBack ==> roots == old(roots);
      return Err(MaterializeError(rolledBack)), failed;
    }

    // The closure between the creation of the root and its rollback.
    method FillRoot(hash: Hash, plan: string, source: seq<byte>, id: Identity, faults: bool)
      returns (ok: bool, ghost failed: bool)
      requires plan in roots && roots[plan] == map[] && |source| == id.length
      modifies this
      ensures plan in roots && roots - {plan} == old(roots) - {plan}
      ensures ok ==> roots == old(roots)[plan := map["input" := source]]
      ensures failed ==> faults
      ensures ok <==> !failed && Matches(hash, id, source)
    {
      failed := false;
      var fault: bool := *;
      failed := failed || (fault && faults);
      if fault && faults { return false, failed; }
      roots := roots[plan := map["input" := []]];
      var length := 0;
      while length < |source|
        invariant 0 <= length <= |source| && roots == old(roots)[plan := map["input" := source[..length]]] && !failed
      {
        fault := *;
        failed := failed || (fault && faults);
        if fault && faults { return false, failed; }
        var read := ReadSome(|source| - length);
        roots := roots[plan := map["input" := roots[plan]["input"] + source[length..length + read]]];
        assert source[..length] + source[length..length + read] == source[..length + read];
        length := length + read;
        if length > id.length { return false, failed; }
      }
      assert source[..length] == source;
      if length != id.length || hash(source) != id.digest { return false, failed; }
      // the copy is read back, hashed, closed and verified again, and the root is listed
      var copied, rehashFailed := Rehash(hash, roots[plan]["input"], id, faults);
      failed := failed || rehashFailed;
      if !copied { return false, failed; }
      var verified, readFailed := ReadVerifiedFile(hash, Some(Object(roots[plan]["input"], 1)), id, faults);
      failed := failed || readFailed;
      if verified.Err? { return false, failed; }
      return roots[plan].Keys == {"input"}, failed;
    }

    method RollbackRoot(plan: string, faults: bool) returns (rolledBack: bool, ghost failed: bool)
      modifies this
      ensures rolledBack ==> roots == old(roots) - {plan}
      ensures rolledBack <==> !failed
      ensures failed ==> faults && plan in old(roots) && plan in roots && roots - {plan} == old(roots) - {plan}
    {
      if plan !in roots {
        assert roots - {plan} == roots;
        return true, false;
      }
      var fault: bool := *;
      failed := fault && faults;
      if fault && faults {
        // some of the files may be gone by then
        var left: map<string, seq<byte>> := *;
        if left.Keys <= roots[plan].Keys { roots := roots[plan := left]; }
        return false, failed;
      }
      roots := roots - {plan};
      return true, failed;
    }
  }

  // The second pass over the output handle: read back from the start and hashed, never past the described length.
  method Rehash(hash: Hash, file: seq<byte>, id: Identity, faults: bool) returns (ok: bool, ghost failed: bool)
    ensures failed ==> faults
    ensures ok <==> !failed && Matches(hash, id, file)
  {
    failed := false;
    var absorbed: seq<byte> := [];
    var length := 0;
    while length < |file|
      invariant 0 <= length <= |file| && absorbed == file[..length] && !failed
    {
      var fault: bool := *;
      failed := failed || (fault && faults);
      if fault && faults { return false, failed; }
      var read := ReadSome(|file| - length);
      absorbed := absorbed + file[length..length + read];
      length := length + read;
      if length > id.length { return false, failed; }
    }
    assert absorbed == file;
    return length == id.length && hash(absorbed) == id.digest, failed;
  }
}
