/** The content-addressed store shared by concurrent processes: `import_artifact`, `commit_content_object`,
    `publish_file_no_replace`, `write_json_atomic` and `load_artifact`, as a step system.

    Every step is one file-system call of one process; processes interleave freely and may stop for ever at any
    point (a crash). The disk is a map from names to inodes and a map from inodes to file contents, so a link count
    is the number of names of an inode and an open handle outlives the removal of its name. */
module ContentStore {
  import opened Wrappers
  import opened Bytes
  import Descriptors

  type Descriptor = Descriptors.Descriptor
  type ArtifactRecord = Descriptors.ArtifactRecord
  type Pid = nat

  // An import first publishes the object, then the record that names it.
  datatype Phase = Obj | Rec

  datatype Name = ObjectName(digest: Digest) | RecordName(id: string) | TempName(p: Pid, phase: Phase)

  // An inode is identified by the process and the phase that created it; a phase creates one file.
  datatype Inode = Inode(p: Pid, phase: Phase)

  datatype Job =
    | Import(bytes: seq<byte>, meta: Descriptors.Meta, artifactId: string)
    | Load(artifactId: string)

  datatype Env = Env(
    hash: Hash,
    descriptorBytes: Descriptor -> seq<byte>,   // serde_json of a descriptor
    recordBytes: ArtifactRecord -> seq<byte>,   // the text of a record file
    parseRecord: seq<byte> -> Option<ArtifactRecord>,
    jobs: Pid -> Job,
    unlinkMayFail: bool)                        // can the unlink at workspace.rs:1691 fail?

  // What a process is about to do. `attempt` counts the tries of `retry_transient` and of the loser's wait.
  datatype Pc =
    | Writing(phase: Phase, done: nat)
    | Publishing(phase: Phase, attempt: nat)
    | Linked(phase: Phase, attempt: nat)
    | RollingBack(phase: Phase, attempt: nat, transient: bool)
    | Discarding(phase: Phase, attempt: nat, loser: bool)
    | Verifying(attempt: nat)
    | CheckingLinks(attempt: nat, ino: Inode)
    | Hashing(ino: Inode, acc: seq<byte>)
    | Committed
    | Returned(ok: bool)
    // the loader
    | Resolving
    | ReadingRecord(ino: Inode)
    | Opening(desc: Descriptor, pass: nat)
    | Inspecting(desc: Descriptor, pass: nat, ino: Inode)
    | Streaming(desc: Descriptor, pass: nat, ino: Inode, acc: seq<byte>)
    | Loaded(desc: Descriptor, bytes: seq<byte>)
    | Refused

  // `winners` is history: the processes whose object publication returned success.
  datatype State = State(
    names: map<Name, Inode>, files: map<Inode, seq<byte>>, procs: map<Pid, Pc>, winners: set<Pid>)

  const INIT := State(map[], map[], map[], {})

  function DigestOf(env: Env, p: Pid): Digest
    requires env.jobs(p).Import?
  {
    env.hash(env.jobs(p).bytes)
  }

  function DescriptorFor(env: Env, p: Pid): Descriptor
    requires env.jobs(p).Import?
  {
    var job := env.jobs(p);
    Descriptors.Descriptor(job.artifactId, DigestOf(env, p), |job.bytes|, job.meta)
  }

  function RecordFor(env: Env, d: Descriptor): ArtifactRecord {
    Descriptors.ArtifactRecord(env.hash(env.descriptorBytes(d)), d)
  }

  /** The bytes a phase publishes. */
  function Content(env: Env, p: Pid, phase: Phase): seq<byte>
    requires env.jobs(p).Import?
  {
    if phase.Obj? then env.jobs(p).bytes else env.recordBytes(RecordFor(env, DescriptorFor(env, p)))
  }

  // Reading back a record that an import wrote gives that record.
  ghost predicate ValidEnv(env: Env) {
    forall p | env.jobs(p).Import? ::
      env.parseRecord(Content(env, p, Rec)) == Some(RecordFor(env, DescriptorFor(env, p)))
  }

  function Dest(env: Env, p: Pid, phase: Phase): Name
    requires env.jobs(p).Import?
  {
    if phase.Obj? then ObjectName(DigestOf(env, p)) else RecordName(env.jobs(p).artifactId)
  }

  function NamesOf(names: map<Name, Inode>, ino: Inode): set<Name> {
    set n | n in names && names[n] == ino
  }

  function LinkCount(names: map<Name, Inode>, ino: Inode): nat {
    |NamesOf(names, ino)|
  }

  // ----- steps -----

  // One call and its outcome. The `...Fault` actions are calls that return an I/O error; `transient` says
  // whether `is_transient` recognises it.
  datatype Action =
    | Start
    | WriteChunk(n: nat)
    | Close
    | Link
    | LinkFault(transient: bool)
    | Unlink
    | UnlinkFault(transient: bool)
    | Rollback
    | RollbackFault
    | Discard
    | DiscardFault(transient: bool)
    | Open
    | OpenFault(transient: bool)
    | CheckLinks
    | ReadChunk(n: nat)
    | Finish
    | BeginRecord
    | Fault

  datatype Event = Event(p: Pid, action: Action)

  const MAX_ATTEMPT := 24

  function Goto(s: State, p: Pid, pc: Pc): State {
    s.(procs := s.procs[p := pc])
  }

  /** The state after process `p` performs `a`, or None if `p` is not about to perform it. */
  function Step(env: Env, s: State, p: Pid, a: Action): Option<State> {
    if a.Start? then
      if p in s.procs then None else Some(StartStep(env, s, p))
    else if p !in s.procs then None
    else if env.jobs(p).Import? then ImportStep(env, s, p, s.procs[p], a)
    else match LoadStep(env, s, p, s.procs[p], a) case None => None case Some(pc) => Some(Goto(s, p, pc))
  }

  function StartStep(env: Env, s: State, p: Pid): State {
    if env.jobs(p).Load? then Goto(s, p, Resolving)
    else if !Descriptors.ValidCapture(env.jobs(p).meta) then Goto(s, p, Returned(false))
    else CreateTemp(s, p, Obj)
  }

  function CreateTemp(s: State, p: Pid, phase: Phase): State {
    Goto(s.(names := s.names[TempName(p, phase) := Inode(p, phase)], files := s.files[Inode(p, phase) := []]),
         p, Writing(phase, 0))
  }

  // What `retry_transient` does with a failed publication: try again, or give up and discard the temporary file.
  function RetryPublish(phase: Phase, attempt: nat, transient: bool): Pc {
    if transient && attempt < MAX_ATTEMPT then Publishing(phase, attempt + 1) else Discarding(phase, 0, false)
  }

  function ImportStep(env: Env, s: State, p: Pid, pc: Pc, a: Action): Option<State>
    requires env.jobs(p).Import?
  {
    match (pc, a)
    case (Writing(phase, done), WriteChunk(n)) =>
      if 0 < n && done + n <= |Content(env, p, phase)|
      then Some(Goto(s.(files := s.files[Inode(p, phase) := Content(env, p, phase)[..done + n]]),
                     p, Writing(phase, done + n)))
      else None
    case (Writing(phase, done), Close) =>
      if done == |Content(env, p, phase)| then Some(Goto(s, p, Publishing(phase, 0))) else None
    case (Writing(_, _), Fault) => Some(Goto(s, p, Returned(false)))
    case (Publishing(phase, k), Link) =>
      if Dest(env, p, phase) in s.names
      then Some(Goto(s, p, Discarding(phase, 0, phase.Obj?)))   // AlreadyExists is not transient
      else Some(Goto(s.(names := s.names[Dest(env, p, phase) := Inode(p, phase)]), p, Linked(phase, k)))
    case (Publishing(phase, k), LinkFault(transient)) => Some(Goto(s, p, RetryPublish(phase, k, transient)))
    case (Linked(phase, k), Unlink) =>
      var s' := s.(names := s.names - {TempName(p, phase)});
      if phase.Obj? then Some(Goto(s'.(winners := s.winners + {p}), p, Committed))
      else Some(Goto(s', p, Returned(true)))
    case (Linked(phase, k), UnlinkFault(transient)) =>
      if env.unlinkMayFail then Some(Goto(s, p, RollingBack(phase, k, transient))) else None
    case (RollingBack(phase, k, transient), Rollback) =>
      Some(Goto(s.(names := s.names - {Dest(env, p, phase)}), p, RetryPublish(phase, k, transient)))
    case (RollingBack(phase, k, _), RollbackFault) => Some(Goto(s, p, Discarding(phase, 0, false)))
    case (Discarding(phase, k, loser), Discard) =>
      Some(Goto(s.(names := s.names - {TempName(p, phase)}), p, if loser then Verifying(0) else Returned(false)))
    case (Discarding(phase, k, loser), DiscardFault(transient)) =>
      Some(Goto(s, p, if transient && k < MAX_ATTEMPT then Discarding(phase, k + 1, loser) else Returned(false)))
    case (Verifying(k), Open) =>
      var dest := Dest(env, p, Obj);
      Some(Goto(s, p, if dest in s.names then CheckingLinks(k, s.names[dest]) else Returned(false)))
    case (Verifying(k), OpenFault(transient)) =>
      Some(Goto(s, p, if transient && k < MAX_ATTEMPT then Verifying(k + 1) else Returned(false)))
    case (CheckingLinks(k, ino), CheckLinks) =>
      Some(Goto(s, p, if LinkCount(s.names, ino) == 1 then Hashing(ino, [])
                      else if k < MAX_ATTEMPT then Verifying(k + 1) else Returned(false)))
    case (Hashing(ino, acc), ReadChunk(n)) =>
      if CanRead(s, ino, acc, n) then Some(Goto(s, p, Hashing(ino, s.files[ino][..|acc| + n]))) else None
    case (Hashing(ino, acc), Finish) =>
      if AtEnd(s, ino, acc)
      then Some(Goto(s, p, if env.hash(acc) == DigestOf(env, p) && |acc| == |env.jobs(p).bytes|
                           then Committed else Returned(false)))
      else None
    case (Committed, BeginRecord) => Some(CreateTemp(s, p, Rec))
    case (CheckingLinks(_, _), Fault) => Some(Goto(s, p, Returned(false)))
    case (Hashing(_, _), Fault) => Some(Goto(s, p, Returned(false)))
    case (Committed, Fault) => Some(Goto(s, p, Returned(false)))
    case _ => None
  }

  // A read returns between one byte and all that is left of the file as it is now.
  predicate CanRead(s: State, ino: Inode, acc: seq<byte>, n: nat) {
    ino in s.files && 0 < n && |acc| + n <= |s.files[ino]|
  }

  predicate AtEnd(s: State, ino: Inode, acc: seq<byte>) {
    ino in s.files && |acc| == |s.files[ino]|
  }

  // A loader changes nothing but its own program counter.
  function LoadStep(env: Env, s: State, p: Pid, pc: Pc, a: Action): Option<Pc>
    requires env.jobs(p).Load?
  {
    var id := env.jobs(p).artifactId;
    match (pc, a)
    case (Resolving, Open) =>
      Some(if RecordName(id) in s.names then ReadingRecord(s.names[RecordName(id)]) else Refused)
    case (ReadingRecord(ino), CheckLinks) =>
      Some(if LinkCount(s.names, ino) == 1 && ino in s.files then AcceptRecord(env, id, s.files[ino])
                      else Refused)
    // `verify_descriptor` is the first pass over the object, `read_verified_descriptor` the second
    case (Opening(d, pass), Open) =>
      Some(if ObjectName(d.digest) in s.names then Inspecting(d, pass, s.names[ObjectName(d.digest)])
                      else Refused)
    case (Inspecting(d, pass, ino), CheckLinks) =>
      Some(if LinkCount(s.names, ino) == 1 && ino in s.files &&
                         (pass == 1 || |s.files[ino]| == d.byteLength)
                      then Streaming(d, pass, ino, []) else Refused)
    case (Streaming(d, pass, ino, acc), ReadChunk(n)) =>
      if CanRead(s, ino, acc, n)
      then Some(if pass != 1 && |acc| + n > d.byteLength then Refused
                           else Streaming(d, pass, ino, s.files[ino][..|acc| + n]))
      else None
    case (Streaming(d, pass, ino, acc), Finish) =>
      if AtEnd(s, ino, acc)
      then Some(if env.hash(acc) == d.digest && |acc| == d.byteLength
                           then (if pass == 1 then Opening(d, 2) else Loaded(d, acc)) else Refused)
      else None
    case (Loaded(_, _), _) => None
    case (Refused, _) => None
    case (_, Fault) => Some(Refused)
    case _ => None
  }

  // The checks `load_artifact` makes on a record file before it opens the object.
  function AcceptRecord(env: Env, id: string, text: seq<byte>): Pc {
    match env.parseRecord(text)
    case None => Refused
    case Some(r) =>
      if r.artifact.artifactId == id && env.hash(env.descriptorBytes(r.artifact)) == r.recordDigest &&
         Descriptors.ValidDescriptor(r.artifact)
      then Opening(r.artifact, 1) else Refused
  }

  /** The state an interleaving leads to, or None if some event of it was not possible. */
  function Run(env: Env, start: State, events: seq<Event>): Option<State> {
    if events == [] then Some(start)
    else
      match Run(env, start, events[..|events| - 1])
      case None => None
      case Some(s) => var e := events[|events| - 1]; Step(env, s, e.p, e.action)
  }

  lemma {:induction false} RunsCompose(env: Env, start: State, first: seq<Event>, s: State, more: seq<Event>, s': State)
    requires Run(env, start, first) == Some(s) && Run(env, s, more) == Some(s')
    ensures Run(env, start, first + more) == Some(s')
  {
    hide Step;
    var all := first + more;
    if more == [] {
      assert all == first;
    } else {
      assert all[..|all| - 1] == first + more[..|more| - 1];
      RunsCompose(env, start, first, s, more[..|more| - 1], Run(env, s, more[..|more| - 1]).value);
    }
  }
}
