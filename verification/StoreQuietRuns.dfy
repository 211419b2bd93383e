/** Success run by run and name by name: what `StoreRefinement` proves under reliable unlinks holds of one digest in
    every run in which no unlink behind the object name of that digest fails. All other unlinks may fail. */
module StoreQuietRuns {
  import opened Wrappers
  import opened Bytes
  import opened ContentStore
  import opened StoreReadable
  import opened StoreRefinement
  import opened StoreSafety

  /** The unlink of a source that was just linked to this name fails. */
  predicate IsFaultOf(env: Env, s: State, e: Event, n: Name) {
    e.action.UnlinkFault? && e.p in s.procs && env.jobs(e.p).Import? && s.procs[e.p].Linked? &&
    Dest(env, e.p, s.procs[e.p].phase) == n
  }

  ghost predicate QuietAt(env: Env, start: State, events: seq<Event>, n: Name, i: nat)
    requires i < |events|
  {
    var s := Run(env, start, events[..i]);
    s.Some? ==> !IsFaultOf(env, s.value, events[i], n)
  }

  /** No event of the run is such a fault. */
  ghost predicate Quiet(env: Env, start: State, events: seq<Event>, n: Name) {
    forall i: nat | i < |events| :: QuietAt(env, start, events, n, i)
  }

  lemma QuietFront(env: Env, start: State, events: seq<Event>, n: Name)
    requires Quiet(env, start, events, n) && events != []
    ensures Quiet(env, start, events[..|events| - 1], n)
    ensures QuietAt(env, start, events, n, |events| - 1)
  {
    hide Run;
    var front := events[..|events| - 1];
    forall i: nat | i < |front|
      ensures QuietAt(env, start, front, n, i)
    {
      assert QuietAt(env, start, events, n, i) && front[..i] == events[..i];
    }
  }

  // ----- a name no process is about to roll back -----

  ghost predicate NameStable(env: Env, s: State, n: Name) {
    Inv(env, s) && forall p | p in s.procs && env.jobs(p).Import? && s.procs[p].RollingBack? ::
      Dest(env, p, s.procs[p].phase) != n
  }

  lemma NameStays(env: Env, s: State, s': State, p: Pid, n: Name)
    requires NameStable(env, s, n) && Guarantee(env, s, s', p) && !n.TempName? && n in s.names
    ensures n in s'.names && s'.names[n] == s.names[n]
  {
    assert NameOk(env, s, n);
    assert n in s'.names ==> KeptOrAdded(env, s, s', p, n);
  }

  lemma RollbackFollowsFault(env: Env, s: State, p: Pid, a: Action, s': State)
    requires Step(env, s, p, a) == Some(s') && p in s'.procs && env.jobs(p).Import? && s'.procs[p].RollingBack?
    ensures p in s.procs && a.UnlinkFault? && s.procs[p].Linked? && s.procs[p].phase == s'.procs[p].phase
  {
  }

  lemma NameStableStep(env: Env, s: State, p: Pid, a: Action, s': State, n: Name)
    requires ValidEnv(env) && NameStable(env, s, n) && !IsFaultOf(env, s, Event(p, a), n)
    requires Step(env, s, p, a) == Some(s')
    ensures NameStable(env, s', n) && Guarantee(env, s, s', p)
  {
    InvStep(env, s, p, a, s');
    if p in s'.procs && env.jobs(p).Import? && s'.procs[p].RollingBack? { RollbackFollowsFault(env, s, p, a, s'); }
    hide Step, Inv, ValidEnv;
  }

  lemma InitIsNameStable(env: Env, n: Name)
    ensures NameStable(env, INIT, n)
  {
  }

  // ----- a digest with a stable object name -----

  ghost predicate ObjectSettled(env: Env, s: State, digest: Digest, pc: Pc) {
    && (PastCommit(pc) || pc.Hashing? ==> Settled(s, digest))
    && (pc.CheckingLinks? || pc.Hashing? ==> Denotes(s, ObjectName(digest), pc.ino))
  }

  ghost predicate ImportsDigest(env: Env, p: Pid, digest: Digest) {
    env.jobs(p).Import? && DigestOf(env, p) == digest
  }

  ghost predicate DigestStable(env: Env, s: State, digest: Digest) {
    NameStable(env, s, ObjectName(digest)) &&
    forall p | p in s.procs && ImportsDigest(env, p, digest) :: ObjectSettled(env, s, digest, s.procs[p])
  }

  lemma DigestStaysSettled(env: Env, s: State, p: Pid, a: Action, s': State, digest: Digest)
    requires DigestStable(env, s, digest) && Step(env, s, p, a) == Some(s') && Guarantee(env, s, s', p)
    requires Settled(s, digest)
    ensures Settled(s', digest)
  {
    hide Step;
    var n := ObjectName(digest);
    assert NameOk(env, s, n);
    NameStays(env, s, s', p, n);
    ObjectTempNeverReturns(env, s, p, a, s', s.names[n].p);
  }

  lemma ActorStaysSettled(env: Env, s: State, p: Pid, a: Action, s': State, digest: Digest)
    requires DigestStable(env, s, digest)
    requires Step(env, s, p, a) == Some(s') && Guarantee(env, s, s', p) && ImportsDigest(env, p, digest)
    ensures ObjectSettled(env, s', digest, s'.procs[p])
  {
    if p in s.procs {
      assert ObjectSettled(env, s, digest, s.procs[p]) && ProcOk(env, s, p);
      var pc := s.procs[p];
      ImportMoves(env, s, p, pc, a, s');
      if Settled(s, digest) { DigestStaysSettled(env, s, p, a, s', digest); }
      if pc.CheckingLinks? { LinksSettle(env, s, digest, pc.ino); }
    }
  }

  lemma OtherStaysSettled(env: Env, s: State, p: Pid, a: Action, s': State, digest: Digest, q: Pid)
    requires DigestStable(env, s, digest) && Step(env, s, p, a) == Some(s') && Guarantee(env, s, s', p)
    requires q != p && q in s.procs && ImportsDigest(env, q, digest)
    ensures ObjectSettled(env, s', digest, s'.procs[q])
  {
    hide Step;
    assert ObjectSettled(env, s, digest, s.procs[q]);
    if Settled(s, digest) { DigestStaysSettled(env, s, p, a, s', digest); }
    if ObjectName(digest) in s.names { NameStays(env, s, s', p, ObjectName(digest)); }
  }

  lemma DigestStableStep(env: Env, s: State, p: Pid, a: Action, s': State, digest: Digest)
    requires ValidEnv(env) && DigestStable(env, s, digest) && !IsFaultOf(env, s, Event(p, a), ObjectName(digest))
    requires Step(env, s, p, a) == Some(s')
    ensures DigestStable(env, s', digest) && Guarantee(env, s, s', p)
  {
    NameStableStep(env, s, p, a, s', ObjectName(digest));
    forall q | q in s'.procs && ImportsDigest(env, q, digest)
      ensures ObjectSettled(env, s', digest, s'.procs[q])
    {
      if q == p {
        ActorStaysSettled(env, s, p, a, s', digest);
      } else {
        OtherStaysSettled(env, s, p, a, s', digest, q);
      }
    }
  }

  lemma {:induction false} DigestStableRun(env: Env, start: State, events: seq<Event>, s: State, digest: Digest)
    requires ValidEnv(env) && DigestStable(env, start, digest) && Run(env, start, events) == Some(s)
    requires Quiet(env, start, events, ObjectName(digest))
    ensures DigestStable(env, s, digest)
  {
    hide DigestStable, Quiet, Step, ValidEnv;
    if events != [] {
      QuietFront(env, start, events, ObjectName(digest));
      var e := events[|events| - 1];
      var before := Run(env, start, events[..|events| - 1]).value;
      DigestStableRun(env, start, events[..|events| - 1], before, digest);
      DigestStableStep(env, before, e.p, e.action, s, digest);
    }
  }

  // ----- success -----

  ghost predicate Succeeded(env: Env, s: State, p: Pid) {
    env.jobs(p).Import? && p in s.procs && s.procs[p] == Returned(true)
  }

  ghost predicate IsRun(env: Env, events: seq<Event>, s: State) {
    ValidEnv(env) && Run(env, INIT, events) == Some(s)
  }

  lemma RunIsSound(env: Env, events: seq<Event>, s: State)
    requires IsRun(env, events, s)
    ensures Inv(env, s)
  {
    InvRun(env, INIT, events, s);
  }

  // The object and the record of an import can be read, and the record is its own.
  ghost predicate HasBoth(env: Env, s: State, p: Pid)
    requires env.jobs(p).Import?
  {
    && Readable(s, Dest(env, p, Obj)) && env.hash(s.files[s.names[Dest(env, p, Obj)]]) == DigestOf(env, p)
    && Readable(s, Dest(env, p, Rec)) && s.names[Dest(env, p, Rec)] == Inode(p, Rec)
    && s.files[Inode(p, Rec)] == Content(env, p, Rec)
  }

  lemma ReturnedHasRecord(env: Env, s: State, p: Pid)
    requires Succeeded(env, s, p) && Inv(env, s)
    ensures var n := Dest(env, p, Rec);
      Readable(s, n) && s.names[n] == Inode(p, Rec) && s.files[Inode(p, Rec)] == Content(env, p, Rec)
  {
    assert ProcOk(env, s, p);
    assert NameOk(env, s, Dest(env, p, Rec));
    SingleName(env, s, p, Rec);
  }

  lemma ReturnedHasObject(env: Env, s: State, p: Pid)
    requires Succeeded(env, s, p) && DigestStable(env, s, DigestOf(env, p))
    ensures var n := Dest(env, p, Obj);
      Readable(s, n) && Published(env, s, s.names[n]) && env.hash(s.files[s.names[n]]) == DigestOf(env, p)
  {
    var digest := DigestOf(env, p);
    assert ImportsDigest(env, p, digest) && ObjectSettled(env, s, digest, s.procs[p]);
    assert NameOk(env, s, ObjectName(digest));
    LinksSettle(env, s, digest, s.names[ObjectName(digest)]);
  }

  lemma SucceededHasBoth(env: Env, events: seq<Event>, s: State, p: Pid)
    requires IsRun(env, events, s) && Succeeded(env, s, p)
    requires Quiet(env, INIT, events, ObjectName(DigestOf(env, p)))
    ensures HasBoth(env, s, p)
  {
    InitIsNameStable(env, ObjectName(DigestOf(env, p)));
    DigestStableRun(env, INIT, events, s, DigestOf(env, p));
    hide Run, Quiet, ValidEnv;
    ReturnedHasRecord(env, s, p);
    ReturnedHasObject(env, s, p);
  }

  /** An import that returned success, in a run in which no unlink behind the object name of its digest failed,
      keeps its object and its record in every continuation, whatever then fails: each under its one name, complete,
      unchanged, the object with the digest. */
  lemma SuccessKeepsItsObject(env: Env, events: seq<Event>, s: State, more: seq<Event>, s': State, p: Pid)
    requires IsRun(env, events, s) && Run(env, s, more) == Some(s') && Succeeded(env, s, p)
    requires Quiet(env, INIT, events, ObjectName(DigestOf(env, p)))
    ensures HasBoth(env, s, p) && HasBoth(env, s', p)
    ensures StaysReadable(s, s', Dest(env, p, Obj)) && StaysReadable(s, s', Dest(env, p, Rec))
  {
    RunIsSound(env, events, s);
    SucceededHasBoth(env, events, s, p);
    hide Run, Inv, Quiet, Readable;
    ReadableStaysInRun(env, s, more, s', Dest(env, p, Obj));
    ReadableStaysInRun(env, s, more, s', Dest(env, p, Rec));
  }
}
