/** The store when the unlink of a published source never fails: every import that returns success stays, and the
    disk refines an append-only map from artifact ids to descriptors and bytes. */
module StoreRefinement {
  import opened Wrappers
  import opened Bytes
  import opened ContentStore
  import opened StoreSafety
  import Descriptors

  /** The object of this digest is present under its one remaining name. */
  predicate Settled(s: State, digest: Digest) {
    var n := ObjectName(digest);
    n in s.names && TempName(s.names[n].p, Obj) !in s.names
  }

  ghost predicate Denotes(s: State, n: Name, ino: Inode) {
    n in s.names && s.names[n] == ino
  }

  ghost predicate ImportSettled(env: Env, s: State, p: Pid, pc: Pc)
    requires env.jobs(p).Import?
  {
    && !pc.RollingBack?
    && (PastCommit(pc) ==> Settled(s, DigestOf(env, p)))
    && (pc.CheckingLinks? || pc.Hashing? ==> Denotes(s, ObjectName(DigestOf(env, p)), pc.ino))
    && (pc.Hashing? ==> Settled(s, DigestOf(env, p)))
  }

  ghost predicate RecordsSettled(env: Env, s: State) {
    forall n | n in s.names && n.RecordName? ::
      env.jobs(s.names[n].p).Import? && Settled(s, DigestOf(env, s.names[n].p))
  }

  ghost predicate Stable(env: Env, s: State) {
    Inv(env, s) && RecordsSettled(env, s) &&
    forall p | p in s.procs && env.jobs(p).Import? :: ImportSettled(env, s, p, s.procs[p])
  }

  lemma NamesNeverGo(env: Env, s: State, s': State, p: Pid, n: Name)
    requires Stable(env, s) && Guarantee(env, s, s', p) && !n.TempName? && n in s.names
    ensures n in s'.names && s'.names[n] == s.names[n]
  {
    if p in s.procs && s.procs[p].RollingBack? { assert ProcOk(env, s, p); }
    assert n in s'.names;
    assert KeptOrAdded(env, s, s', p, n);
  }

  lemma ObjectTempNeverReturns(env: Env, s: State, p: Pid, a: Action, s': State, q: Pid)
    requires Step(env, s, p, a) == Some(s') && Guarantee(env, s, s', p)
    requires q in s.procs && TempName(q, Obj) !in s.names
    ensures TempName(q, Obj) !in s'.names
  {
    if q == p { OwnTempNeverReturns(env, s, p, a, s'); }
    hide Step;
  }

  lemma OwnTempNeverReturns(env: Env, s: State, p: Pid, a: Action, s': State)
    requires Step(env, s, p, a) == Some(s') && p in s.procs && TempName(p, Obj) !in s.names
    ensures TempName(p, Obj) !in s'.names
  {
  }

  lemma SettledStays(env: Env, s: State, p: Pid, a: Action, s': State, digest: Digest)
    requires Stable(env, s) && Step(env, s, p, a) == Some(s') && Guarantee(env, s, s', p) && Settled(s, digest)
    ensures Settled(s', digest)
  {
    var n := ObjectName(digest);
    assert NameOk(env, s, n);
    NamesNeverGo(env, s, s', p, n);
    ObjectTempNeverReturns(env, s, p, a, s', s.names[n].p);
  }

  // A single link seen at a handle that the object name still denotes means the object is settled.
  lemma LinksSettle(env: Env, s: State, digest: Digest, ino: Inode)
    requires Inv(env, s) && Denotes(s, ObjectName(digest), ino)
    ensures LinkCount(s.names, ino) == 1 <==> Settled(s, digest)
  {
    assert NameOk(env, s, ObjectName(digest));
    assert ino == Inode(ino.p, Obj);
    SingleName(env, s, ino.p, Obj);
  }

  // How an import's program counter can move.
  ghost predicate Moves(env: Env, s: State, p: Pid, pc: Pc, s': State, pc': Pc)
    requires env.jobs(p).Import?
  {
    && (PastCommit(pc') ==> (PastCommit(pc) || pc.Hashing? || ObjectUnlinked(s, p, pc, s')))
    && (pc'.CheckingLinks? ==> Denotes(s, Dest(env, p, Obj), pc'.ino))
    && (pc'.Hashing? ==> ((pc.Hashing? || pc.CheckingLinks?) && pc.ino == pc'.ino))
    && (pc'.Hashing? && pc.CheckingLinks? ==> LinkCount(s.names, pc.ino) == 1)
    && (pc'.CheckingLinks? || pc'.Hashing? || pc.Hashing? ==> s'.names == s.names)
  }

  ghost predicate ObjectUnlinked(s: State, p: Pid, pc: Pc, s': State) {
    pc.Linked? && pc.phase.Obj? && s'.names == s.names - {TempName(p, Obj)}
  }

  lemma ImportMoves(env: Env, s: State, p: Pid, pc: Pc, a: Action, s': State)
    requires env.jobs(p).Import? && ImportStep(env, s, p, pc, a) == Some(s')
    ensures Moves(env, s, p, pc, s', s'.procs[p])
    ensures s'.procs[p].RollingBack? ==> env.unlinkMayFail
  {
  }

  lemma ActorSettled(env: Env, s: State, p: Pid, a: Action, s': State)
    requires Stable(env, s) && !env.unlinkMayFail
    requires Step(env, s, p, a) == Some(s') && Guarantee(env, s, s', p) && env.jobs(p).Import?
    ensures ImportSettled(env, s', p, s'.procs[p])
  {
    if p in s.procs {
      assert ImportSettled(env, s, p, s.procs[p]) && ProcOk(env, s, p);
      var pc, digest := s.procs[p], DigestOf(env, p);
      ImportMoves(env, s, p, pc, a, s');
      if Settled(s, digest) { SettledStays(env, s, p, a, s', digest); }
      if pc.CheckingLinks? { LinksSettle(env, s, digest, pc.ino); }
    }
  }

  lemma OthersSettled(env: Env, s: State, p: Pid, a: Action, s': State, q: Pid)
    requires Stable(env, s) && Step(env, s, p, a) == Some(s') && Guarantee(env, s, s', p)
    requires q != p && q in s.procs && env.jobs(q).Import?
    ensures ImportSettled(env, s', q, s'.procs[q])
  {
    assert ImportSettled(env, s, q, s.procs[q]);
    var pc, digest := s.procs[q], DigestOf(env, q);
    if Settled(s, digest) { SettledStays(env, s, p, a, s', digest); }
    if pc.CheckingLinks? || pc.Hashing? { NamesNeverGo(env, s, s', p, ObjectName(digest)); }
  }

  // A record name appears only when its publisher links it, after its object settled.
  lemma RecordsStaySettled(env: Env, s: State, p: Pid, a: Action, s': State)
    requires Stable(env, s) && Inv(env, s') && Step(env, s, p, a) == Some(s') && Guarantee(env, s, s', p)
    ensures RecordsSettled(env, s')
  {
    forall n | n in s'.names && n.RecordName?
      ensures env.jobs(s'.names[n].p).Import? && Settled(s', DigestOf(env, s'.names[n].p))
    {
      assert KeptOrAdded(env, s, s', p, n) && NameOk(env, s', n);
      if n !in s.names {
        NewNameIsLinked(env, s, p, a, s', n);
        assert ImportSettled(env, s, p, s.procs[p]);
      }
      SettledStays(env, s, p, a, s', DigestOf(env, s'.names[n].p));
    }
  }

  lemma NewNameIsLinked(env: Env, s: State, p: Pid, a: Action, s': State, n: Name)
    requires Step(env, s, p, a) == Some(s') && !n.TempName? && n !in s.names && n in s'.names
    ensures p in s.procs && env.jobs(p).Import? && s.procs[p].Publishing? && a.Link?
    ensures n == Dest(env, p, s.procs[p].phase) && s'.names[n] == Inode(p, s.procs[p].phase)
    ensures s'.procs == s.procs[p := Linked(s.procs[p].phase, s.procs[p].attempt)]
    ensures s'.names == s.names[n := s'.names[n]] && s'.files == s.files
  {
  }

  lemma StableStep(env: Env, s: State, p: Pid, a: Action, s': State)
    requires ValidEnv(env) && !env.unlinkMayFail && Stable(env, s) && Step(env, s, p, a) == Some(s')
    ensures Stable(env, s') && Guarantee(env, s, s', p)
  {
    InvStep(env, s, p, a, s');
    RecordsStaySettled(env, s, p, a, s');
    forall q | q in s'.procs && env.jobs(q).Import?
      ensures ImportSettled(env, s', q, s'.procs[q])
    {
      if q == p { ActorSettled(env, s, p, a, s'); } else { OthersSettled(env, s, p, a, s', q); }
    }
  }

  lemma {:induction false} StableRun(env: Env, start: State, events: seq<Event>, s: State)
    requires ValidEnv(env) && !env.unlinkMayFail && Stable(env, start) && Run(env, start, events) == Some(s)
    ensures Stable(env, s)
  {
    if events != [] {
      var e := events[|events| - 1];
      var before := Run(env, start, events[..|events| - 1]).value;
      StableRun(env, start, events[..|events| - 1], before);
      StableStep(env, before, e.p, e.action, s);
    }
  }

  // ----- the append-only map -----

  /** No two imports collide under the hash. */
  ghost predicate CollisionFree(env: Env) {
    forall p, q | env.jobs(p).Import? && env.jobs(q).Import? && DigestOf(env, p) == DigestOf(env, q) ::
      env.jobs(p).bytes == env.jobs(q).bytes
  }

  /** What the disk holds for an artifact id: the descriptor of its record and the bytes of its object. */
  function Lookup(env: Env, s: State, id: string): Option<(Descriptor, seq<byte>)> {
    if RecordName(id) in s.names && s.names[RecordName(id)] in s.files then
      match env.parseRecord(s.files[s.names[RecordName(id)]])
      case None => None
      case Some(r) =>
        var n := ObjectName(r.artifact.digest);
        if n in s.names && s.names[n] in s.files then Some((r.artifact, s.files[s.names[n]])) else None
    else None
  }

  function RecordIds(s: State): set<string> {
    set n | n in s.names && n.RecordName? :: n.id
  }

  function Abs(env: Env, s: State): map<string, (Descriptor, seq<byte>)> {
    map id | id in RecordIds(s) && Lookup(env, s, id).Some? :: Lookup(env, s, id).value
  }

  lemma LookupIs(env: Env, s: State, id: string)
    requires ValidEnv(env) && CollisionFree(env) && Stable(env, s)
    ensures RecordName(id) !in s.names ==> Lookup(env, s, id) == None
    ensures RecordName(id) in s.names ==> var q := s.names[RecordName(id)].p;
      env.jobs(q).Import? && env.jobs(q).artifactId == id &&
      Lookup(env, s, id) == Some((DescriptorFor(env, q), env.jobs(q).bytes))
  {
    if RecordName(id) in s.names {
      assert NameOk(env, s, RecordName(id));
      var q := s.names[RecordName(id)].p;
      assert s.names[RecordName(id)] == Inode(q, Rec);
      assert NameOk(env, s, ObjectName(DigestOf(env, q)));
    }
  }

  lemma AbsIs(env: Env, s: State)
    requires ValidEnv(env) && CollisionFree(env) && Stable(env, s)
    ensures AbsMatches(env, s, Abs(env, s))
  {
    forall id
      ensures id in Abs(env, s) <==> RecordName(id) in s.names
      ensures id in Abs(env, s) ==> AbsEntry(env, s, id, Abs(env, s)[id])
    {
      assert RecordName(id) in s.names <==> id in RecordIds(s);
      LookupIs(env, s, id);
    }
  }

  // The map holds, for every record name, what its publisher imported.
  ghost predicate AbsMatches(env: Env, s: State, m: map<string, (Descriptor, seq<byte>)>) {
    (forall id :: id in m <==> RecordName(id) in s.names) && forall id | id in m :: AbsEntry(env, s, id, m[id])
  }

  ghost predicate AbsEntry(env: Env, s: State, id: string, entry: (Descriptor, seq<byte>)) {
    RecordName(id) in s.names && var q := s.names[RecordName(id)].p;
    env.jobs(q).Import? && entry == (DescriptorFor(env, q), env.jobs(q).bytes)
  }

  ghost predicate Appended(env: Env, p: Pid, m: map<string, (Descriptor, seq<byte>)>,
                           m': map<string, (Descriptor, seq<byte>)>) {
    env.jobs(p).Import? && env.jobs(p).artifactId !in m &&
    m' == m[env.jobs(p).artifactId := (DescriptorFor(env, p), env.jobs(p).bytes)]
  }

  lemma NamesGiveAbs(env: Env, s: State, s': State, p: Pid, m: map<string, (Descriptor, seq<byte>)>,
                     m': map<string, (Descriptor, seq<byte>)>)
    requires AbsMatches(env, s, m) && AbsMatches(env, s', m')
    requires forall id | RecordName(id) in s.names :: Denotes(s', RecordName(id), s.names[RecordName(id)])
    requires forall id | RecordName(id) in s'.names && RecordName(id) !in s.names ::
      env.jobs(p).Import? && id == env.jobs(p).artifactId && s'.names[RecordName(id)].p == p
    ensures m' == m || Appended(env, p, m, m')
  {
    forall id | id in m
      ensures id in m' && m'[id] == m[id]
    {
      assert AbsEntry(env, s, id, m[id]) && RecordName(id) in s'.names && AbsEntry(env, s', id, m'[id]);
    }
    if added :| added in m' && added !in m {
      assert AbsEntry(env, s', added, m'[added]);
      assert m' == m[added := m'[added]];
    } else {
      assert m' == m;
    }
  }

  lemma StepRefinesAppend(env: Env, s: State, p: Pid, a: Action, s': State)
    requires ValidEnv(env) && CollisionFree(env) && !env.unlinkMayFail && Stable(env, s)
    requires Step(env, s, p, a) == Some(s')
    ensures Abs(env, s') == Abs(env, s) || Appended(env, p, Abs(env, s), Abs(env, s'))
  {
    StableStep(env, s, p, a, s');
    forall id | RecordName(id) in s.names
      ensures Denotes(s', RecordName(id), s.names[RecordName(id)])
    {
      NamesNeverGo(env, s, s', p, RecordName(id));
    }
    forall id | RecordName(id) in s'.names && RecordName(id) !in s.names
      ensures env.jobs(p).Import? && id == env.jobs(p).artifactId && s'.names[RecordName(id)].p == p
    {
      NewRecord(env, s, p, a, s', id);
    }
    AbsIs(env, s);
    AbsIs(env, s');
    NamesGiveAbs(env, s, s', p, Abs(env, s), Abs(env, s'));
  }

  lemma NewRecord(env: Env, s: State, p: Pid, a: Action, s': State, id: string)
    requires Step(env, s, p, a) == Some(s') && RecordName(id) !in s.names && RecordName(id) in s'.names
    ensures env.jobs(p).Import? && id == env.jobs(p).artifactId && s'.names[RecordName(id)].p == p
  {
    NewNameIsLinked(env, s, p, a, s', RecordName(id));
  }

  /** The disk refines an append-only map from artifact ids to descriptors and bytes: in every interleaving, the next
      step leaves the map alone or adds the acting import's own descriptor and bytes under an id that was free. */
  lemma StoreIsAppendOnly(env: Env, events: seq<Event>, s: State, p: Pid, a: Action, s': State)
    requires ValidEnv(env) && CollisionFree(env) && !env.unlinkMayFail
    requires Run(env, INIT, events) == Some(s) && Step(env, s, p, a) == Some(s')
    ensures Abs(env, s') == Abs(env, s) || Appended(env, p, Abs(env, s), Abs(env, s'))
  {
    hide Step;
    StableRun(env, INIT, events, s);
    StepRefinesAppend(env, s, p, a, s');
  }

  // ----- imports that returned success -----

  ghost predicate Stored(env: Env, s: State, p: Pid)
    requires env.jobs(p).Import?
  {
    var objectName, recordName := Dest(env, p, Obj), Dest(env, p, Rec);
    && Denotes(s, recordName, Inode(p, Rec)) && LinkCount(s.names, Inode(p, Rec)) == 1
    && objectName in s.names && LinkCount(s.names, s.names[objectName]) == 1 && s.names[objectName] in s.files
    && env.hash(s.files[s.names[objectName]]) == DigestOf(env, p)
    && TempName(p, Obj) !in s.names && TempName(p, Rec) !in s.names
    && (CollisionFree(env) ==>
          s.files[s.names[objectName]] == env.jobs(p).bytes &&
          env.jobs(p).artifactId in Abs(env, s) &&
          Abs(env, s)[env.jobs(p).artifactId] == (DescriptorFor(env, p), env.jobs(p).bytes))
  }

  lemma ReturnedIsStored(env: Env, s: State, p: Pid)
    requires ValidEnv(env) && Stable(env, s) && p in s.procs && s.procs[p] == Returned(true) && env.jobs(p).Import?
    ensures Stored(env, s, p)
  {
    assert ProcOk(env, s, p) && ImportSettled(env, s, p, s.procs[p]);
    var objectName, recordName := Dest(env, p, Obj), Dest(env, p, Rec);
    assert NameOk(env, s, objectName);
    LinksSettle(env, s, DigestOf(env, p), s.names[objectName]);
    SingleName(env, s, p, Rec);
    if CollisionFree(env) { LookupIs(env, s, env.jobs(p).artifactId); }
  }

  lemma ReturnedHalts(env: Env, s: State, p: Pid, a: Action, ok: bool)
    requires env.jobs(p).Import?
    ensures ImportStep(env, s, p, Returned(ok), a) == None
  {
  }

  lemma {:induction false} ReturnedStays(env: Env, s: State, events: seq<Event>, s': State, p: Pid)
    requires ValidEnv(env) && Inv(env, s) && Run(env, s, events) == Some(s')
    requires env.jobs(p).Import? && p in s.procs && s.procs[p] == Returned(true)
    ensures p in s'.procs && s'.procs[p] == Returned(true)
  {
    if events != [] {
      var e := events[|events| - 1];
      var before := Run(env, s, events[..|events| - 1]).value;
      ReturnedStays(env, s, events[..|events| - 1], before, p);
      InvRun(env, s, events[..|events| - 1], before);
      InvStep(env, before, e.p, e.action, s');
      ReturnedHalts(env, before, p, e.action, true);
    }
  }

  lemma SuccessMeans(env: Env, events: seq<Event>, s: State, p: Pid)
    requires ValidEnv(env) && Run(env, INIT, events) == Some(s) && env.jobs(p).Import?
    requires p in s.procs && s.procs[p] == Returned(true)
    ensures Descriptors.ValidCapture(env.jobs(p).meta)
    ensures Owns(env, s, p, Rec) && TempName(p, Obj) !in s.names && TempName(p, Rec) !in s.names
    ensures !env.unlinkMayFail ==> Stored(env, s, p)
  {
    InvRun(env, INIT, events, s);
    assert ProcOk(env, s, p);
    if !env.unlinkMayFail {
      StableRun(env, INIT, events, s);
      ReturnedIsStored(env, s, p);
    }
  }

  /** Every import that returns success, winner or loser, leaves its object and its record present and unchanged in
      every continuation, each under a single name, with no temporary file of its own. */
  lemma SuccessIsPermanent(env: Env, events: seq<Event>, s: State, more: seq<Event>, s': State, p: Pid)
    requires ValidEnv(env) && !env.unlinkMayFail
    requires Run(env, INIT, events) == Some(s) && Run(env, s, more) == Some(s')
    requires env.jobs(p).Import? && p in s.procs && s.procs[p] == Returned(true)
    ensures Stored(env, s', p)
    ensures var objectName := Dest(env, p, Obj);
      objectName in s.names && s'.names[objectName] == s.names[objectName] && s.names[objectName] in s.files &&
      s'.files[s.names[objectName]] == s.files[s.names[objectName]]
  {
    StableRun(env, INIT, events, s);
    StableRun(env, s, more, s');
    ReturnedIsStored(env, s, p);
    ReturnedStays(env, s, more, s', p);
    ReturnedIsStored(env, s', p);
    var objectName := Dest(env, p, Obj);
    assert NameOk(env, s, objectName);
    PublishedForever(env, s, more, s', s.names[objectName]);
    NamesNeverGoInRun(env, s, more, s', objectName);
  }

  lemma {:induction false} NamesNeverGoInRun(env: Env, s: State, events: seq<Event>, s': State, n: Name)
    requires ValidEnv(env) && !env.unlinkMayFail && Stable(env, s) && Run(env, s, events) == Some(s')
    requires !n.TempName? && n in s.names
    ensures n in s'.names && s'.names[n] == s.names[n]
  {
    if events != [] {
      var e := events[|events| - 1];
      var before := Run(env, s, events[..|events| - 1]).value;
      NamesNeverGoInRun(env, s, events[..|events| - 1], before, n);
      StableRun(env, s, events[..|events| - 1], before);
      StableStep(env, before, e.p, e.action, s');
      NamesNeverGo(env, before, s', e.p, n);
    }
  }
}
