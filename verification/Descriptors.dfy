/** Artifact descriptors: the contract an import checks and the contract a load checks. */
module Descriptors {
  import opened Bytes
  import Text

  datatype Meta = Meta(roles: seq<string>, mediaType: string, origin: string, captureMode: string)

  // The digest algorithm is "sha256", the storage URI is derived from the digest and the transforms are empty in
  // every descriptor an import builds.
  datatype Descriptor = Descriptor(artifactId: string, digest: Digest, byteLength: nat, meta: Meta)

  // An artifact record: the descriptor and the digest of its serialisation.
  datatype ArtifactRecord = ArtifactRecord(recordDigest: Digest, artifact: Descriptor)

  predicate ValidRole(role: string) {
    0 < |role| <= 64 && forall c | c in role :: Text.IsLower(c) || Text.IsDigit(c) || c == '_'
  }

  predicate ValidRoles(roles: seq<string>) {
    roles != [] && (forall r | r in roles :: ValidRole(r)) &&
    forall i, j | 0 <= i < j < |roles| :: roles[i] != roles[j]
  }

  /** `validate_artifact_capture_contract`: what an import demands. */
  predicate ValidCapture(m: Meta) {
    ValidRoles(m.roles) && m.mediaType != [] && Text.IsTrimmed(m.mediaType) &&
    m.origin in {"native_file", "process_stdout", "process_stderr"} &&
    m.captureMode in {"byte_for_byte_copy", "raw_stream_capture"}
  }

  /** The further demand of a load: the capture mode belongs to the origin. */
  predicate OriginAgrees(m: Meta) {
    (m.origin == "native_file" && m.captureMode == "byte_for_byte_copy") ||
    (m.origin in {"process_stdout", "process_stderr"} && m.captureMode == "raw_stream_capture")
  }

  /** `validate_artifact_descriptor`, on the fields a descriptor can vary. */
  predicate ValidDescriptor(d: Descriptor) {
    ValidRoles(d.meta.roles) && d.meta.mediaType != [] && Text.IsTrimmed(d.meta.mediaType) &&
    OriginAgrees(d.meta)
  }

  // ----- the code -----

  // The loop over the roles, which both validators share.
  method ValidateRoles(roles: seq<string>) returns (ok: bool)
    ensures ok <==> ValidRoles(roles)
  {
    hide ValidRole;
    if roles == [] { return false; }
    var unique: set<string> := {};
    for k := 0 to |roles|
      invariant unique == set i | 0 <= i < k :: roles[i]
      invariant forall i | 0 <= i < k :: ValidRole(roles[i])
      invariant forall i, j | 0 <= i < j < k :: roles[i] != roles[j]
    {
      assert roles[k] in roles;
      var valid := ValidateRole(roles[k]);
      if !valid || roles[k] in unique { return false; }
      unique := unique + {roles[k]};
    }
    return true;
  }

  method ValidateRole(role: string) returns (ok: bool)
    ensures ok <==> ValidRole(role)
  {
    if role == "" || |role| > 64 { return false; }
    for k := 0 to |role|
      invariant forall c | c in role[..k] :: Text.IsLower(c) || Text.IsDigit(c) || c == '_'
    {
      assert role[k] in role;
      var b := role[k] as int;
      if !(0x61 <= b <= 0x7A || 0x30 <= b <= 0x39 || b == 0x5F) { return false; }
    }
    assert role[..|role|] == role;
    return true;
  }

  /** `validate_artifact_capture_contract`. */
  method ValidateCaptureContract(m: Meta) returns (ok: bool)
    ensures ok <==> ValidCapture(m)
  {
    hide ValidRoles, Text.Trim, Text.IsTrimmed;
    var roles := ValidateRoles(m.roles);
    if !roles { return false; }
    Text.TrimmedIff(m.mediaType);
    if m.mediaType == "" || Text.Trim(m.mediaType) != m.mediaType { return false; }
    if m.origin != "native_file" && m.origin != "process_stdout" && m.origin != "process_stderr" { return false; }
    if m.captureMode != "byte_for_byte_copy" && m.captureMode != "raw_stream_capture" { return false; }
    return true;
  }

  /** `validate_artifact_descriptor`, on the fields a descriptor can vary. */
  method ValidateDescriptor(d: Descriptor) returns (ok: bool)
    ensures ok <==> ValidDescriptor(d)
  {
    hide ValidRoles, Text.Trim, Text.IsTrimmed;
    var m := d.meta;
    var roles := ValidateRoles(m.roles);
    if !roles { return false; }
    Text.TrimmedIff(m.mediaType);
    if m.mediaType == "" || Text.Trim(m.mediaType) != m.mediaType { return false; }
    match m.origin
    case "native_file" => return m.captureMode == "byte_for_byte_copy";
    case "process_stdout" => return m.captureMode == "raw_stream_capture";
    case "process_stderr" => return m.captureMode == "raw_stream_capture";
    case _ => return false;
  }

  /** What a load accepts of what an import accepts: the descriptors whose capture mode is the one of their origin. */
  lemma LoadableIff(d: Descriptor)
    requires ValidCapture(d.meta)
    ensures ValidDescriptor(d) <==> (d.meta.origin == "native_file" <==> d.meta.captureMode == "byte_for_byte_copy")
  {
  }

  /** A role is made of these characters. */
  lemma ValidRoleIff(role: string)
    ensures ValidRole(role) <==>
            1 <= |role| <= 64 &&
            forall c | c in role :: c in "abcdefghijklmnopqrstuvwxyz" || c in "0123456789" || c == '_'
  {
    hide Text.IsLower, Text.IsDigit;
    forall c: char
      ensures Text.IsLower(c) <==> c in "abcdefghijklmnopqrstuvwxyz"
      ensures Text.IsDigit(c) <==> c in "0123456789"
    {
      Text.ClassesAre(c);
    }
  }
}
