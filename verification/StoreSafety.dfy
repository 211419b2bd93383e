/** What holds of the store in every interleaving, whatever calls fail: a published name always denotes one
    complete file, and no reader ever sees part of one. */
module StoreSafety {
  import opened Wrappers
  import opened Bytes
  import opened ContentStore

  // May a process at `pc` still write the file of `phase`?
  predicate MayWrite(pc: Pc, phase: Phase) {
    match pc
    case Writing(ph, _) => phase.Rec? || ph.Obj?
    case Publishing(ph, _) => phase.Rec? && ph.Obj?
    case Linked(ph, _) => phase.Rec? && ph.Obj?
    case RollingBack(ph, _, _) => phase.Rec? && ph.Obj?
    case Discarding(ph, _, _) => phase.Rec? && ph.Obj?
    case Verifying(_) => phase.Rec?
    case CheckingLinks(_, _) => phase.Rec?
    case Hashing(_, _) => phase.Rec?
    case Committed => phase.Rec?
    case _ => false
  }

  // Is `pc` in the record phase, after the object was committed, or has the import returned success?
  predicate PastCommit(pc: Pc) {
    match pc
    case Writing(ph, _) => ph.Rec?
    case Publishing(ph, _) => ph.Rec?
    case Linked(ph, _) => ph.Rec?
    case RollingBack(ph, _, _) => ph.Rec?
    case Discarding(ph, _, _) => ph.Rec?
    case Committed => true
    case Returned(ok) => ok
    case _ => false
  }

  ghost predicate Sealed(s: State, ino: Inode) {
    ino.p in s.procs && !MayWrite(s.procs[ino.p], ino.phase)
  }

  /** The inode holds everything its creator had to write, and nobody will write it again. */
  ghost predicate Published(env: Env, s: State, ino: Inode) {
    Sealed(s, ino) && env.jobs(ino.p).Import? && ino in s.files && s.files[ino] == Content(env, ino.p, ino.phase)
  }

  ghost predicate PublishedAs(env: Env, s: State, ino: Inode, n: Name) {
    Published(env, s, ino) && n == Dest(env, ino.p, ino.phase)
  }

  ghost predicate NamesOk(env: Env, s: State) {
    forall n | n in s.names ::
      if n.TempName? then s.names[n] == Inode(n.p, n.phase) && n.p in s.procs && env.jobs(n.p).Import?
      else PublishedAs(env, s, s.names[n], n)
  }

  predicate Owns(env: Env, s: State, p: Pid, phase: Phase)
    requires env.jobs(p).Import?
  {
    var dest := Dest(env, p, phase);
    dest in s.names && s.names[dest] == Inode(p, phase)
  }

  ghost predicate HasTemp(s: State, p: Pid, phase: Phase) {
    TempName(p, phase) in s.names
  }

  ghost predicate ObjectRead(env: Env, s: State, ino: Inode, digest: Digest, acc: seq<byte>) {
    PublishedAs(env, s, ino, ObjectName(digest)) && acc <= s.files[ino]
  }

  ghost predicate ImportOk(env: Env, s: State, p: Pid, pc: Pc)
    requires env.jobs(p).Import?
  {
    && (PastCommit(pc) ==> !HasTemp(s, p, Obj))
    && (pc != Returned(false) ==> Descriptors.ValidCapture(env.jobs(p).meta))
    && match pc
       case Writing(ph, done) =>
         && HasTemp(s, p, ph) && !Owns(env, s, p, ph) && Inode(p, ph) in s.files
         && done <= |Content(env, p, ph)| && s.files[Inode(p, ph)] == Content(env, p, ph)[..done]
       case Publishing(ph, _) => HasTemp(s, p, ph) && !Owns(env, s, p, ph) && Published(env, s, Inode(p, ph))
       case Linked(ph, _) => HasTemp(s, p, ph) && Owns(env, s, p, ph)
       case RollingBack(ph, _, _) => HasTemp(s, p, ph) && Owns(env, s, p, ph) && env.unlinkMayFail
       case Discarding(ph, _, loser) => HasTemp(s, p, ph) && (loser ==> ph.Obj? && !Owns(env, s, p, ph))
       case Verifying(_) => !HasTemp(s, p, Obj) && !Owns(env, s, p, Obj)
       case CheckingLinks(_, ino) =>
         !HasTemp(s, p, Obj) && !Owns(env, s, p, Obj) && ObjectRead(env, s, ino, DigestOf(env, p), [])
       case Hashing(ino, acc) =>
         !HasTemp(s, p, Obj) && !Owns(env, s, p, Obj) && ObjectRead(env, s, ino, DigestOf(env, p), acc)
       case Committed => true
       case Returned(ok) => ok ==> Owns(env, s, p, Rec) && !HasTemp(s, p, Rec)
       case _ => false
  }

  ghost predicate RecordRead(env: Env, s: State, p: Pid, d: Descriptor)
    requires env.jobs(p).Load?
  {
    d.artifactId == env.jobs(p).artifactId && Descriptors.ValidDescriptor(d) &&
    exists q :: PublishedAs(env, s, Inode(q, Rec), RecordName(d.artifactId)) && d == DescriptorFor(env, q)
  }

  ghost predicate LoadOk(env: Env, s: State, p: Pid, pc: Pc)
    requires env.jobs(p).Load?
  {
    match pc
    case Resolving => true
    case ReadingRecord(ino) => PublishedAs(env, s, ino, RecordName(env.jobs(p).artifactId))
    case Opening(d, pass) => RecordRead(env, s, p, d) && 1 <= pass <= 2
    case Inspecting(d, pass, ino) => RecordRead(env, s, p, d) && ObjectRead(env, s, ino, d.digest, []) && 1 <= pass <= 2
    case Streaming(d, pass, ino, acc) => RecordRead(env, s, p, d) && ObjectRead(env, s, ino, d.digest, acc) &&
        1 <= pass <= 2
    case Loaded(d, bytes) =>
      RecordRead(env, s, p, d) && env.hash(bytes) == d.digest && |bytes| == d.byteLength &&
      exists q :: PublishedAs(env, s, Inode(q, Obj), ObjectName(d.digest)) && bytes == Content(env, q, Obj)
    case Refused => true
    case _ => false
  }

  ghost predicate ProcOk(env: Env, s: State, p: Pid)
    requires p in s.procs
  {
    if env.jobs(p).Import? then ImportOk(env, s, p, s.procs[p]) else LoadOk(env, s, p, s.procs[p])
  }

  ghost predicate WinnerOk(env: Env, s: State, p: Pid) {
    p in s.procs && env.jobs(p).Import? && Owns(env, s, p, Obj) && !HasTemp(s, p, Obj) &&
    !MayWrite(s.procs[p], Obj) && (PastCommit(s.procs[p]) || s.procs[p] == Returned(false))
  }

  ghost predicate WinnersOk(env: Env, s: State) {
    forall p | p in s.winners :: WinnerOk(env, s, p)
  }

  ghost predicate Inv(env: Env, s: State) {
    NamesOk(env, s) && WinnersOk(env, s) && forall p | p in s.procs :: ProcOk(env, s, p)
  }

  // ----- what one step of `p` can do to everybody else -----

  ghost predicate Guarantee(env: Env, s: State, s': State, p: Pid) {
    && p in s'.procs
    && (forall q | q != p :: (q in s'.procs <==> q in s.procs) && (q in s.procs ==> s'.procs[q] == s.procs[q]))
    && (forall n: Name | n.TempName? && n.p != p ::
          (n in s'.names <==> n in s.names) && (n in s.names ==> s'.names[n] == s.names[n]))
    && (forall n: Name | n.TempName? && n.p == p && n in s'.names ::
          s'.names[n] == Inode(n.p, n.phase) && env.jobs(p).Import?)
    && (forall n: Name | !n.TempName? && n in s'.names :: KeptOrAdded(env, s, s', p, n))
    && (forall n: Name | !n.TempName? && n in s.names && n !in s'.names ::
          s.names[n].p == p && p in s.procs && s.procs[p].RollingBack? && s.procs[p].phase == s.names[n].phase)
    && (forall ino | ino in s.files ::
          ino in s'.files && ((ino.p != p || Sealed(s, ino)) ==> s'.files[ino] == s.files[ino]))
    && (forall ph :: Sealed(s, Inode(p, ph)) ==> Sealed(s', Inode(p, ph)))
  }

  ghost predicate KeptOrAdded(env: Env, s: State, s': State, p: Pid, n: Name) {
    n in s'.names &&
    if n in s.names then s'.names[n] == s.names[n]
    else s'.names[n].p == p && PublishedAs(env, s', s'.names[n], n)
  }

  lemma PublishedStays(env: Env, s: State, s': State, p: Pid, ino: Inode)
    requires Guarantee(env, s, s', p) && Published(env, s, ino)
    ensures Published(env, s', ino) && s'.files[ino] == s.files[ino]
  {
    assert ino == Inode(ino.p, ino.phase);
  }

  lemma RecordReadStays(env: Env, s: State, s': State, p: Pid, q: Pid, d: Descriptor)
    requires Guarantee(env, s, s', p) && env.jobs(q).Load? && RecordRead(env, s, q, d)
    ensures RecordRead(env, s', q, d)
  {
    var w :| PublishedAs(env, s, Inode(w, Rec), RecordName(d.artifactId)) && d == DescriptorFor(env, w);
    PublishedStays(env, s, s', p, Inode(w, Rec));
    assert PublishedAs(env, s', Inode(w, Rec), RecordName(d.artifactId));
  }

  lemma NamesStay(env: Env, s: State, s': State, p: Pid)
    requires NamesOk(env, s) && Guarantee(env, s, s', p)
    ensures NamesOk(env, s')
  {
    forall n | n in s'.names
      ensures if n.TempName? then s'.names[n] == Inode(n.p, n.phase) && n.p in s'.procs && env.jobs(n.p).Import?
              else PublishedAs(env, s', s'.names[n], n)
    {
      if !n.TempName? && n in s.names {
        assert KeptOrAdded(env, s, s', p, n);
        PublishedStays(env, s, s', p, s.names[n]);
      }
    }
  }

  lemma OwnershipStays(env: Env, s: State, s': State, p: Pid, q: Pid, phase: Phase)
    requires Guarantee(env, s, s', p) && q != p && env.jobs(q).Import?
    ensures Owns(env, s', q, phase) == Owns(env, s, q, phase)
  {
    var dest := Dest(env, q, phase);
    assert dest in s'.names ==> KeptOrAdded(env, s, s', p, dest);
  }

  lemma OtherImportStays(env: Env, s: State, s': State, p: Pid, q: Pid)
    requires Inv(env, s) && Guarantee(env, s, s', p) && q != p && q in s.procs && env.jobs(q).Import?
    ensures ImportOk(env, s', q, s'.procs[q])
  {
    assert ProcOk(env, s, q);
    var pc := s.procs[q];
    forall ph: Phase
      ensures Owns(env, s', q, ph) == Owns(env, s, q, ph)
      ensures HasTemp(s', q, ph) == HasTemp(s, q, ph)
    {
      OwnershipStays(env, s, s', p, q, ph);
    }
    if pc.Publishing? { PublishedStays(env, s, s', p, Inode(q, pc.phase)); }
    if pc.CheckingLinks? || pc.Hashing? { PublishedStays(env, s, s', p, pc.ino); }
  }

  lemma OtherLoadStays(env: Env, s: State, s': State, p: Pid, q: Pid)
    requires Inv(env, s) && Guarantee(env, s, s', p) && q != p && q in s.procs && env.jobs(q).Load?
    ensures LoadOk(env, s', q, s'.procs[q])
  {
    assert ProcOk(env, s, q);
    LoadFactsStay(env, s, s', p, q, s.procs[q]);
  }

  lemma LoadFactsStay(env: Env, s: State, s': State, p: Pid, q: Pid, pc: Pc)
    requires Guarantee(env, s, s', p) && env.jobs(q).Load? && LoadOk(env, s, q, pc)
    ensures LoadOk(env, s', q, pc)
  {
    match pc
    case ReadingRecord(ino) => PublishedStays(env, s, s', p, ino);
    case Opening(d, _) => RecordReadStays(env, s, s', p, q, d);
    case Inspecting(d, _, ino) => RecordReadStays(env, s, s', p, q, d); PublishedStays(env, s, s', p, ino);
    case Streaming(d, _, ino, _) => RecordReadStays(env, s, s', p, q, d); PublishedStays(env, s, s', p, ino);
    case Loaded(d, bytes) =>
      RecordReadStays(env, s, s', p, q, d);
      var w :| PublishedAs(env, s, Inode(w, Obj), ObjectName(d.digest)) && bytes == Content(env, w, Obj);
      PublishedStays(env, s, s', p, Inode(w, Obj));
      assert PublishedAs(env, s', Inode(w, Obj), ObjectName(d.digest));
    case _ =>
  }

  lemma WinnersStay(env: Env, s: State, s': State, p: Pid)
    requires Inv(env, s) && Guarantee(env, s, s', p)
    requires forall q | q in s'.winners && q != p :: q in s.winners
    requires p in s'.winners ==> WinnerOk(env, s', p)
    ensures WinnersOk(env, s')
  {
    forall q | q in s'.winners && q != p
      ensures Owns(env, s', q, Obj) == Owns(env, s, q, Obj)
    {
      OwnershipStays(env, s, s', p, q, Obj);
    }
  }

  // ----- the guarantee, by what the step touches -----

  ghost predicate SealsKept(pc: Pc, pc': Pc) {
    forall ph :: MayWrite(pc', ph) ==> MayWrite(pc, ph)
  }

  lemma GotoGuarantee(env: Env, s: State, p: Pid, pc: Pc)
    requires NamesOk(env, s) && p in s.procs && SealsKept(s.procs[p], pc)
    ensures Guarantee(env, s, Goto(s, p, pc), p)
  {
  }

  lemma UnlinkTempGuarantee(env: Env, s: State, p: Pid, phase: Phase, pc: Pc, winners: set<Pid>)
    requires NamesOk(env, s) && p in s.procs && SealsKept(s.procs[p], pc)
    ensures Guarantee(env, s, Goto(s.(names := s.names - {TempName(p, phase)}, winners := winners), p, pc), p)
  {
  }

  lemma CreateTempGuarantee(env: Env, s: State, p: Pid, phase: Phase)
    requires NamesOk(env, s) && env.jobs(p).Import?
    requires if phase.Obj? then p !in s.procs else p in s.procs && s.procs[p].Committed?
    ensures Guarantee(env, s, CreateTemp(s, p, phase), p)
    ensures !Owns(env, s, p, phase)
  {
    var dest := Dest(env, p, phase);
    assert dest in s.names ==> PublishedAs(env, s, s.names[dest], dest);
  }

  lemma WriteGuarantee(env: Env, s: State, p: Pid, phase: Phase, done: nat, bytes: seq<byte>)
    requires NamesOk(env, s) && p in s.procs && s.procs[p].Writing? && s.procs[p].phase == phase
    requires Inode(p, phase) in s.files
    ensures Guarantee(env, s, Goto(s.(files := s.files[Inode(p, phase) := bytes]), p, Writing(phase, done)), p)
  {
  }

  lemma LinkGuarantee(env: Env, s: State, p: Pid, phase: Phase, k: nat)
    requires NamesOk(env, s) && p in s.procs && s.procs[p] == Publishing(phase, k) && env.jobs(p).Import?
    requires Published(env, s, Inode(p, phase)) && Dest(env, p, phase) !in s.names
    ensures Guarantee(env, s,
              Goto(s.(names := s.names[Dest(env, p, phase) := Inode(p, phase)]), p, Linked(phase, k)), p)
  {
    var s' := Goto(s.(names := s.names[Dest(env, p, phase) := Inode(p, phase)]), p, Linked(phase, k));
    LinkKept(env, s, p, phase, k);
    hide KeptOrAdded, Published, PublishedAs, Dest;
  }

  lemma LinkKept(env: Env, s: State, p: Pid, phase: Phase, k: nat)
    requires p in s.procs && s.procs[p] == Publishing(phase, k) && env.jobs(p).Import?
    requires Published(env, s, Inode(p, phase)) && Dest(env, p, phase) !in s.names
    ensures var s' := Goto(s.(names := s.names[Dest(env, p, phase) := Inode(p, phase)]), p, Linked(phase, k));
      forall n: Name | !n.TempName? && n in s'.names :: KeptOrAdded(env, s, s', p, n)
  {
    var s' := Goto(s.(names := s.names[Dest(env, p, phase) := Inode(p, phase)]), p, Linked(phase, k));
    assert PublishedAs(env, s', Inode(p, phase), Dest(env, p, phase));
  }

  lemma RollbackGuarantee(env: Env, s: State, p: Pid, phase: Phase, pc: Pc)
    requires NamesOk(env, s) && p in s.procs && s.procs[p].RollingBack? && s.procs[p].phase == phase
    requires env.jobs(p).Import? && Owns(env, s, p, phase) && SealsKept(s.procs[p], pc)
    ensures Guarantee(env, s, Goto(s.(names := s.names - {Dest(env, p, phase)}), p, pc), p)
  {
  }

  // ----- a step of each kind -----

  // What a step needs to know, and establishes, about the process that takes it.
  ghost predicate OwnOk(env: Env, s: State, p: Pid) {
    p in s.procs && ProcOk(env, s, p) && (p in s.winners ==> WinnerOk(env, s, p))
  }

  ghost predicate ImportStepped(env: Env, s: State, p: Pid, a: Action, s': State) {
    OwnOk(env, s, p) && env.jobs(p).Import? && ImportStep(env, s, p, s.procs[p], a) == Some(s')
  }

  // The file a destination name denotes, if it denotes one, is published under that name.
  ghost predicate NameOk(env: Env, s: State, n: Name) {
    n in s.names ==> PublishedAs(env, s, s.names[n], n)
  }

  lemma StartKeeps(env: Env, s: State, p: Pid, s': State)
    requires p !in s.procs && p !in s.winners && s' == StartStep(env, s, p)
    requires env.jobs(p).Import? ==> !Owns(env, s, p, Obj)
    ensures OwnOk(env, s', p)
  {
  }

  lemma StartGuarantee(env: Env, s: State, p: Pid, s': State)
    requires NamesOk(env, s) && p !in s.procs && s' == StartStep(env, s, p)
    ensures Guarantee(env, s, s', p)
    ensures env.jobs(p).Import? ==> !Owns(env, s, p, Obj)
  {
    if env.jobs(p).Import? { CreateTempGuarantee(env, s, p, Obj); }
    GotoNewGuarantee(env, s, p, s'.procs[p]);
    hide Guarantee, NamesOk;
  }

  lemma GotoNewGuarantee(env: Env, s: State, p: Pid, pc: Pc)
    requires NamesOk(env, s) && p !in s.procs
    ensures Guarantee(env, s, Goto(s, p, pc), p)
  {
  }

  lemma WritingKeeps(env: Env, s: State, p: Pid, a: Action, s': State)
    requires ImportStepped(env, s, p, a, s') && s.procs[p].Writing?
    ensures OwnOk(env, s', p)
  {
  }

  lemma WritingGuarantee(env: Env, s: State, p: Pid, a: Action, s': State)
    requires NamesOk(env, s) && ImportStepped(env, s, p, a, s') && s.procs[p].Writing?
    ensures Guarantee(env, s, s', p)
  {
    hide Guarantee, NamesOk;
    var pc := s.procs[p];
    if a.WriteChunk? {
      WriteGuarantee(env, s, p, pc.phase, pc.done + a.n, Content(env, p, pc.phase)[..pc.done + a.n]);
    } else {
      GotoGuarantee(env, s, p, s'.procs[p]);
    }
  }

  lemma LinkingKeeps(env: Env, s: State, p: Pid, a: Action, s': State)
    requires ImportStepped(env, s, p, a, s') && s.procs[p].Publishing?
    requires NameOk(env, s, Dest(env, p, s.procs[p].phase))
    ensures OwnOk(env, s', p)
  {
  }

  lemma LinkedKeeps(env: Env, s: State, p: Pid, a: Action, s': State)
    requires ImportStepped(env, s, p, a, s') && (s.procs[p].Linked? || s.procs[p].RollingBack?)
    requires NameOk(env, s, Dest(env, p, s.procs[p].phase))
    ensures OwnOk(env, s', p)
  {
  }

  lemma PublishingKeeps(env: Env, s: State, p: Pid, a: Action, s': State)
    requires ImportStepped(env, s, p, a, s')
    requires s.procs[p].Publishing? || s.procs[p].Linked? || s.procs[p].RollingBack?
    requires NameOk(env, s, Dest(env, p, s.procs[p].phase))
    ensures OwnOk(env, s', p)
  {
    if s.procs[p].Publishing? { LinkingKeeps(env, s, p, a, s'); } else { LinkedKeeps(env, s, p, a, s'); }
    hide ImportStepped, OwnOk, NameOk;
  }

  lemma PublishingGuarantee(env: Env, s: State, p: Pid, a: Action, s': State)
    requires NamesOk(env, s) && ImportStepped(env, s, p, a, s')
    requires s.procs[p].Publishing? || s.procs[p].Linked? || s.procs[p].RollingBack?
    ensures Guarantee(env, s, s', p)
  {
    hide Guarantee, NamesOk;
    var pc := s.procs[p];
    if a.Link? && Dest(env, p, pc.phase) !in s.names { LinkGuarantee(env, s, p, pc.phase, pc.attempt); }
    else if a.Unlink? { UnlinkTempGuarantee(env, s, p, pc.phase, s'.procs[p], s'.winners); }
    else if a.Rollback? { RollbackGuarantee(env, s, p, pc.phase, s'.procs[p]); }
    else { GotoGuarantee(env, s, p, s'.procs[p]); }
  }

  lemma DiscardingKeeps(env: Env, s: State, p: Pid, a: Action, s': State)
    requires NamesOk(env, s) && ImportStepped(env, s, p, a, s') && s.procs[p].Discarding?
    ensures OwnOk(env, s', p) && Guarantee(env, s, s', p)
  {
    if a.Discard? { UnlinkTempGuarantee(env, s, p, s.procs[p].phase, s'.procs[p], s.winners); }
    else { GotoGuarantee(env, s, p, s'.procs[p]); }
  }

  predicate VerifyingPc(pc: Pc) {
    pc.Verifying? || pc.CheckingLinks? || pc.Hashing? || pc.Committed? || pc.Returned?
  }

  lemma OpenedKeeps(env: Env, s: State, p: Pid, a: Action, s': State)
    requires ImportStepped(env, s, p, a, s') && (s.procs[p].Verifying? || s.procs[p].CheckingLinks?)
    requires NameOk(env, s, Dest(env, p, Obj))
    ensures OwnOk(env, s', p)
  {
  }

  lemma HashedKeeps(env: Env, s: State, p: Pid, a: Action, s': State)
    requires ImportStepped(env, s, p, a, s') && s.procs[p].Hashing?
    ensures OwnOk(env, s', p)
  {
  }

  lemma CommittedKeeps(env: Env, s: State, p: Pid, a: Action, s': State)
    requires ImportStepped(env, s, p, a, s') && (s.procs[p].Committed? || s.procs[p].Returned?)
    requires NameOk(env, s, Dest(env, p, Rec))
    ensures OwnOk(env, s', p)
  {
  }

  lemma VerifyingKeeps(env: Env, s: State, p: Pid, a: Action, s': State)
    requires ImportStepped(env, s, p, a, s') && VerifyingPc(s.procs[p])
    requires NameOk(env, s, Dest(env, p, Obj)) && NameOk(env, s, Dest(env, p, Rec))
    ensures OwnOk(env, s', p)
  {
    var pc := s.procs[p];
    hide ImportStepped, OwnOk, NameOk;
    if pc.Hashing? { HashedKeeps(env, s, p, a, s'); }
    else if pc.Committed? || pc.Returned? { CommittedKeeps(env, s, p, a, s'); }
    else { OpenedKeeps(env, s, p, a, s'); }
  }

  lemma VerifyingGuarantee(env: Env, s: State, p: Pid, a: Action, s': State)
    requires NamesOk(env, s) && ImportStepped(env, s, p, a, s') && VerifyingPc(s.procs[p])
    ensures Guarantee(env, s, s', p)
  {
    hide Guarantee, NamesOk;
    if a.BeginRecord? { CreateTempGuarantee(env, s, p, Rec); }
    else { GotoGuarantee(env, s, p, s'.procs[p]); }
  }

  // The loader's next program counter is justified by what the disk already says: while it resolves the record, and
  // while it reads the object.
  lemma RecordAdvances(env: Env, s: State, p: Pid, pc: Pc, a: Action, pc': Pc)
    requires ValidEnv(env) && env.jobs(p).Load? && LoadOk(env, s, p, pc)
    requires NameOk(env, s, RecordName(env.jobs(p).artifactId)) && (pc.Resolving? || pc.ReadingRecord?)
    requires LoadStep(env, s, p, pc, a) == Some(pc')
    ensures LoadOk(env, s, p, pc')
  {
    if pc.ReadingRecord? && a.CheckLinks? { RecordAccepted(env, s, p, pc.ino); }
  }

  lemma ObjectAdvances(env: Env, s: State, p: Pid, pc: Pc, a: Action, pc': Pc)
    requires env.jobs(p).Load? && LoadOk(env, s, p, pc) && !pc.Resolving? && !pc.ReadingRecord?
    requires pc.Opening? ==> NameOk(env, s, ObjectName(pc.desc.digest))
    requires LoadStep(env, s, p, pc, a) == Some(pc')
    ensures LoadOk(env, s, p, pc')
  {
    hide RecordRead;
    if pc.Streaming? && a.Finish? { ObjectAccepted(env, s, pc.ino, pc.desc.digest, pc.acc); }
  }

  lemma LoadAdvances(env: Env, s: State, p: Pid, pc: Pc, a: Action, pc': Pc)
    requires ValidEnv(env) && env.jobs(p).Load? && LoadOk(env, s, p, pc)
    requires NamesOk(env, s)
    requires LoadStep(env, s, p, pc, a) == Some(pc')
    ensures LoadOk(env, s, p, pc')
  {
    hide LoadOk, LoadStep;
    if pc.Resolving? || pc.ReadingRecord? {
      assert NameOk(env, s, RecordName(env.jobs(p).artifactId));
      RecordAdvances(env, s, p, pc, a, pc');
    } else {
      if pc.Opening? { assert NameOk(env, s, ObjectName(pc.desc.digest)); }
      ObjectAdvances(env, s, p, pc, a, pc');
    }
  }

  lemma LoadKeeps(env: Env, s: State, p: Pid, a: Action, pc': Pc, s': State)
    requires ValidEnv(env) && NamesOk(env, s) && OwnOk(env, s, p) && env.jobs(p).Load?
    requires LoadStep(env, s, p, s.procs[p], a) == Some(pc') && s' == Goto(s, p, pc')
    ensures OwnOk(env, s', p)
  {
    LoadAdvances(env, s, p, s.procs[p], a, pc');
    LoadGuarantee(env, s, p, a, pc', s');
    LoadFactsStay(env, s, s', p, p, pc');
  }

  lemma LoadGuarantee(env: Env, s: State, p: Pid, a: Action, pc': Pc, s': State)
    requires NamesOk(env, s) && OwnOk(env, s, p) && env.jobs(p).Load?
    requires LoadStep(env, s, p, s.procs[p], a) == Some(pc') && s' == Goto(s, p, pc')
    ensures Guarantee(env, s, s', p)
  {
    LoaderNeverWrites(env, s, p, s.procs[p], a, pc');
    hide Guarantee, NamesOk, OwnOk, LoadStep;
    GotoGuarantee(env, s, p, pc');
  }

  lemma LoaderNeverWrites(env: Env, s: State, p: Pid, pc: Pc, a: Action, pc': Pc)
    requires env.jobs(p).Load? && LoadStep(env, s, p, pc, a) == Some(pc')
    ensures forall ph :: !MayWrite(pc', ph)
  {
  }

  lemma RecordAccepted(env: Env, s: State, p: Pid, ino: Inode)
    requires ValidEnv(env) && env.jobs(p).Load? && PublishedAs(env, s, ino, RecordName(env.jobs(p).artifactId))
    ensures LoadOk(env, s, p, AcceptRecord(env, env.jobs(p).artifactId, s.files[ino]))
  {
    assert ino == Inode(ino.p, Rec);
    assert s.files[ino] == env.recordBytes(RecordFor(env, DescriptorFor(env, ino.p)));
  }

  lemma ObjectAccepted(env: Env, s: State, ino: Inode, digest: Digest, acc: seq<byte>)
    requires ObjectRead(env, s, ino, digest, acc) && |acc| == |s.files[ino]|
    ensures exists q :: PublishedAs(env, s, Inode(q, Obj), ObjectName(digest)) && acc == Content(env, q, Obj)
  {
    assert ino == Inode(ino.p, Obj) && acc == s.files[ino];
  }

  lemma ImportKeeps(env: Env, s: State, p: Pid, a: Action, s': State)
    requires NamesOk(env, s) && ImportStepped(env, s, p, a, s')
    ensures OwnOk(env, s', p)
    ensures Guarantee(env, s, s', p)
  {
    var pc := s.procs[p];
    assert forall ph :: NameOk(env, s, Dest(env, p, ph));
    if pc.Writing? {
      WritingKeeps(env, s, p, a, s');
      WritingGuarantee(env, s, p, a, s');
    } else if pc.Publishing? || pc.Linked? || pc.RollingBack? {
      PublishingKeeps(env, s, p, a, s');
      PublishingGuarantee(env, s, p, a, s');
    } else if pc.Discarding? {
      DiscardingKeeps(env, s, p, a, s');
    } else {
      VerifyingKeeps(env, s, p, a, s');
      VerifyingGuarantee(env, s, p, a, s');
    }
  }

  lemma StepKeeps(env: Env, s: State, p: Pid, a: Action, s': State)
    requires ValidEnv(env) && Inv(env, s) && Step(env, s, p, a) == Some(s')
    ensures OwnOk(env, s', p)
    ensures Guarantee(env, s, s', p)
  {
    if a.Start? {
      StartGuarantee(env, s, p, s');
      StartKeeps(env, s, p, s');
    } else {
      assert OwnOk(env, s, p) by { assert ProcOk(env, s, p); }
      if env.jobs(p).Load? {
        LoadKeeps(env, s, p, a, s'.procs[p], s');
        LoadGuarantee(env, s, p, a, s'.procs[p], s');
      } else {
        ImportKeeps(env, s, p, a, s');
      }
    }
  }

  lemma OnlyActorWins(env: Env, s: State, p: Pid, a: Action, s': State)
    requires Step(env, s, p, a) == Some(s')
    ensures forall q | q in s'.winners && q != p :: q in s.winners
  {
  }

  lemma InvStep(env: Env, s: State, p: Pid, a: Action, s': State)
    requires ValidEnv(env) && Inv(env, s) && Step(env, s, p, a) == Some(s')
    ensures Inv(env, s') && Guarantee(env, s, s', p)
  {
    StepKeeps(env, s, p, a, s');
    NamesStay(env, s, s', p);
    OnlyActorWins(env, s, p, a, s');
    WinnersStay(env, s, s', p);
    forall q | q in s'.procs && q != p
      ensures ProcOk(env, s', q)
    {
      if env.jobs(q).Import? { OtherImportStays(env, s, s', p, q); } else { OtherLoadStays(env, s, s', p, q); }
    }
  }

  lemma {:induction false} InvRun(env: Env, start: State, events: seq<Event>, s: State)
    requires ValidEnv(env) && Inv(env, start) && Run(env, start, events) == Some(s)
    ensures Inv(env, s)
  {
    if events != [] {
      var e := events[|events| - 1];
      var before := Run(env, start, events[..|events| - 1]).value;
      InvRun(env, start, events[..|events| - 1], before);
      InvStep(env, before, e.p, e.action, s);
    }
  }

  // ----- main results -----

  /** In every interleaving, whatever fails, an object name denotes a file that some import wrote completely, that
      hashes to the digest in the name, and that nobody will write again. */
  lemma ObjectNamesDenoteTheirContent(env: Env, events: seq<Event>, s: State, digest: Digest)
    requires ValidEnv(env) && Run(env, INIT, events) == Some(s) && ObjectName(digest) in s.names
    ensures var ino := s.names[ObjectName(digest)];
      Sealed(s, ino) && env.jobs(ino.p).Import? && ino in s.files &&
      s.files[ino] == env.jobs(ino.p).bytes && env.hash(s.files[ino]) == digest
  {
    InvRun(env, INIT, events, s);
    assert NameOk(env, s, ObjectName(digest));
  }

  /** A published file never changes, not even after its name is removed, so an open handle reads it whole. */
  lemma {:induction false} PublishedForever(env: Env, s: State, events: seq<Event>, s': State, ino: Inode)
    requires ValidEnv(env) && Inv(env, s) && Run(env, s, events) == Some(s') && Published(env, s, ino)
    ensures Published(env, s', ino) && s'.files[ino] == s.files[ino]
  {
    if events != [] {
      var e := events[|events| - 1];
      var before := Run(env, s, events[..|events| - 1]).value;
      PublishedForever(env, s, events[..|events| - 1], before, ino);
      InvRun(env, s, events[..|events| - 1], before);
      InvStep(env, before, e.p, e.action, s');
      PublishedStays(env, before, s', e.p, ino);
    }
  }

  /** Whatever a process is reading through an open object handle is a prefix of a complete import whose digest
      is the one it expects. */
  lemma NoPartialObjectIsRead(env: Env, events: seq<Event>, s: State, p: Pid, ino: Inode, acc: seq<byte>)
    requires ValidEnv(env) && Run(env, INIT, events) == Some(s) && p in s.procs
    requires s.procs[p] == Hashing(ino, acc) || exists d, pass :: s.procs[p] == Streaming(d, pass, ino, acc)
    ensures env.jobs(ino.p).Import? && acc <= env.jobs(ino.p).bytes && ino in s.files
    ensures s.files[ino] == env.jobs(ino.p).bytes
    ensures s.procs[p].Hashing? ==> env.jobs(p).Import? && DigestOf(env, ino.p) == DigestOf(env, p)
    ensures s.procs[p].Streaming? ==> DigestOf(env, ino.p) == s.procs[p].desc.digest
  {
    InvRun(env, INIT, events, s);
    assert ProcOk(env, s, p);
    assert ino == Inode(ino.p, Obj);
  }

  /** Even with failing unlinks, what a load returns hashes to the digest of its descriptor, has its length, is the
      content of some import, and the descriptor is the one recorded by an import under that id. */
  lemma LoadedIsRecorded(env: Env, events: seq<Event>, s: State, p: Pid)
    requires ValidEnv(env) && Run(env, INIT, events) == Some(s) && p in s.procs && s.procs[p].Loaded?
    ensures var Loaded(d, bytes) := s.procs[p];
      && env.hash(bytes) == d.digest && |bytes| == d.byteLength
      && (exists q :: env.jobs(q).Import? && bytes == env.jobs(q).bytes)
      && (exists q :: env.jobs(q).Import? && d == DescriptorFor(env, q)) && env.jobs(p) == Load(d.artifactId)
  {
    InvRun(env, INIT, events, s);
    assert ProcOk(env, s, p);
    var Loaded(d, bytes) := s.procs[p];
    var q :| PublishedAs(env, s, Inode(q, Obj), ObjectName(d.digest)) && bytes == Content(env, q, Obj);
    assert env.jobs(q).Import? && bytes == env.jobs(q).bytes;
  }

  lemma WinnersGrow(env: Env, s: State, p: Pid, a: Action, s': State)
    requires Step(env, s, p, a) == Some(s')
    ensures s.winners <= s'.winners
  {
  }

  lemma {:induction false} WinnersStayWinners(env: Env, s: State, events: seq<Event>, s': State)
    requires Run(env, s, events) == Some(s')
    ensures s.winners <= s'.winners
  {
    if events != [] {
      var e := events[|events| - 1];
      var before := Run(env, s, events[..|events| - 1]).value;
      WinnersStayWinners(env, s, events[..|events| - 1], before);
      WinnersGrow(env, before, e.p, e.action, s');
    }
  }

  /** At most one import ever wins a digest, and the object it published keeps that name and a single link in
      every continuation, whatever fails. */
  lemma WinnerIsUniqueAndStays(env: Env, events: seq<Event>, s: State, more: seq<Event>, s': State, p: Pid, q: Pid)
    requires ValidEnv(env) && Run(env, INIT, events) == Some(s) && Run(env, s, more) == Some(s')
    requires p in s.winners && q in s'.winners
    requires env.jobs(p).Import? && env.jobs(q).Import? && DigestOf(env, p) == DigestOf(env, q)
    ensures p == q
    ensures ObjectName(DigestOf(env, p)) in s'.names && s'.names[ObjectName(DigestOf(env, p))] == Inode(p, Obj)
    ensures LinkCount(s'.names, Inode(p, Obj)) == 1
  {
    InvRun(env, INIT, events, s);
    InvRun(env, s, more, s');
    WinnersStayWinners(env, s, more, s');
    assert WinnerOk(env, s', p) && WinnerOk(env, s', q);
    SingleName(env, s', p, Obj);
  }

  /** An inode has no name other than its creator's temporary name and destination. */
  lemma NamesOfInode(env: Env, s: State, p: Pid, phase: Phase)
    requires NamesOk(env, s) && env.jobs(p).Import?
    ensures forall n | n in s.names && s.names[n] == Inode(p, phase) ::
      n == TempName(p, phase) || n == Dest(env, p, phase)
  {
  }

  /** The link count of a published file is one exactly when the temporary name is gone. */
  lemma SingleName(env: Env, s: State, p: Pid, phase: Phase)
    requires NamesOk(env, s) && env.jobs(p).Import? && Owns(env, s, p, phase)
    ensures LinkCount(s.names, Inode(p, phase)) == 1 <==> !HasTemp(s, p, phase)
  {
    NamesOfInode(env, s, p, phase);
    var dest, temp := Dest(env, p, phase), TempName(p, phase);
    if HasTemp(s, p, phase) {
      assert NamesOf(s.names, Inode(p, phase)) == {dest, temp};
    } else {
      assert NamesOf(s.names, Inode(p, phase)) == {dest};
    }
  }
}
