/** Why success needs the unlinks behind its object name: the open and the link-count check of a loser are two
    calls, and a rollback between them leaves the loser with a single link to a file that no object name denotes. */
module StoreUnlinkFault {
  import opened Wrappers
  import opened Bytes
  import opened ContentStore
  import opened StoreQuietRuns
  import opened StoreReadable
  import opened StoreSafety
  import Descriptors

  /** Unlinks fail only behind names where they may. */
  ghost predicate FaultsWithin(env: Env, events: seq<Event>, mayFail: Name -> bool) {
    forall n: Name | !mayFail(n) :: Quiet(env, INIT, events, n)
  }

  /** Does success of an import of this digest imply that its object is there, in every run whose unlinks fail only
      behind these names? */
  ghost predicate SuccessKeepsObject(digest: Digest, mayFail: Name -> bool) {
    forall env, events, s, p |
      IsRun(env, events, s) && Succeeded(env, s, p) && DigestOf(env, p) == digest &&
      FaultsWithin(env, events, mayFail) ::
      Readable(s, ObjectName(digest))
  }

  // ----- a race -----

  // Processes 0 and 1 import the same empty file under `id`; the others load `id`. Every content hashes to `digest`.
  datatype Race = Race(id: string, digest: Digest, mayFail: Name -> bool)

  const META := Descriptors.Meta(["native_stdout"], "text/plain", "process_stdout", "raw_stream_capture")

  function ArtifactOf(r: Race): Descriptor {
    Descriptors.Descriptor(r.id, r.digest, 0, META)
  }

  function EnvOf(r: Race): Env {
    Env((_: seq<byte>) => r.digest, (_: Descriptor) => [], (_: ArtifactRecord) => [],
        (_: seq<byte>) => Some(Descriptors.ArtifactRecord(r.digest, ArtifactOf(r))),
        (p: Pid) => if p < 2 then Import([], META, r.id) else Load(r.id), true)
  }

  lemma MetaIsValid()
    ensures Descriptors.ValidCapture(META) && Descriptors.OriginAgrees(META)
  {
    var role := META.roles[0];
    assert role == "native_stdout";
    assert META.mediaType[0] == 't' && META.mediaType[|META.mediaType| - 1] == 'n';
  }

  /** The events lead the race to this state, and unlinks fail only where they may. */
  ghost predicate Leads(r: Race, events: seq<Event>, s: State) {
    IsRun(EnvOf(r), events, s) && FaultsWithin(EnvOf(r), events, r.mayFail)
  }

  lemma Begins(r: Race)
    ensures Leads(r, [], INIT)
  {
  }

  lemma QuietBack(env: Env, events: seq<Event>, s: State, e: Event, n: Name)
    requires Run(env, INIT, events) == Some(s) && Quiet(env, INIT, events, n) && !IsFaultOf(env, s, e, n)
    ensures Quiet(env, INIT, events + [e], n)
  {
    hide Run, IsFaultOf;
    var longer := events + [e];
    assert longer[..|events|] == events;
    forall i: nat | i < |longer|
      ensures QuietAt(env, INIT, longer, n, i)
    {
      if i < |events| {
        assert QuietAt(env, INIT, events, n, i) && longer[..i] == events[..i];
      }
    }
  }

  lemma Follows(r: Race, events: seq<Event>, s: State, p: Pid, a: Action, s': State) returns (longer: seq<Event>)
    requires Leads(r, events, s) && Step(EnvOf(r), s, p, a) == Some(s')
    requires forall n | IsFaultOf(EnvOf(r), s, Event(p, a), n) :: r.mayFail(n)
    ensures Leads(r, longer, s')
  {
    hide Step, IsFaultOf;
    longer := events + [Event(p, a)];
    assert longer[..|longer| - 1] == events;
    forall n: Name | !r.mayFail(n)
      ensures Quiet(EnvOf(r), INIT, longer, n)
    {
      QuietBack(EnvOf(r), events, s, Event(p, a), n);
    }
    hide Quiet;
  }

  const T0 := TempName(0, Obj)
  const T1 := TempName(1, Obj)
  const T1R := TempName(1, Rec)
  const I0 := Inode(0, Obj)
  const I1 := Inode(1, Obj)
  const I1R := Inode(1, Rec)
  const FILES: map<Inode, seq<byte>> := map[I0 := [], I1 := []]
  const ALL_FILES: map<Inode, seq<byte>> := map[I0 := [], I1 := [], I1R := []]

  // Both processes have written their temporary files.
  lemma BothWritten(r: Race) returns (e: seq<Event>, s: State)
    ensures Leads(r, e, s)
    ensures s == State(map[T0 := I0, T1 := I1], FILES, map[0 := Publishing(Obj, 0), 1 := Publishing(Obj, 0)], {})
  {
    hide Leads;
    Begins(r);
    MetaIsValid();
    var s1 := CreateTemp(INIT, 0, Obj);
    e := Follows(r, [], INIT, 0, Start, s1);
    var s2 := Goto(s1, 0, Publishing(Obj, 0));
    e := Follows(r, e, s1, 0, Close, s2);
    var s3 := CreateTemp(s2, 1, Obj);
    e := Follows(r, e, s2, 1, Start, s3);
    s := Goto(s3, 1, Publishing(Obj, 0));
    e := Follows(r, e, s3, 1, Close, s);
  }

  // Process 0 has linked its object; process 1 found the name taken.
  lemma LoserLoses(r: Race) returns (e: seq<Event>, s: State)
    ensures Leads(r, e, s)
    ensures s == State(map[T0 := I0, T1 := I1, ObjectName(r.digest) := I0], FILES,
                       map[0 := Linked(Obj, 0), 1 := Discarding(Obj, 0, true)], {})
  {
    hide Leads;
    var s4;
    e, s4 := BothWritten(r);
    var s5 := Goto(s4.(names := s4.names[ObjectName(r.digest) := I0]), 0, Linked(Obj, 0));
    e := Follows(r, e, s4, 0, Link, s5);
    s := Goto(s5, 1, Discarding(Obj, 0, true));
    e := Follows(r, e, s5, 1, Link, s);
  }

  // It discards its own file and opens the winner's object.
  lemma LoserHoldsHandle(r: Race) returns (e: seq<Event>, s: State)
    ensures Leads(r, e, s)
    ensures s == State(map[T0 := I0, ObjectName(r.digest) := I0], FILES,
                       map[0 := Linked(Obj, 0), 1 := CheckingLinks(0, I0)], {})
  {
    hide Leads;
    var s6;
    e, s6 := LoserLoses(r);
    var s7 := Goto(s6.(names := s6.names - {T1}), 1, Verifying(0));
    e := Follows(r, e, s6, 1, Discard, s7);
    s := Goto(s7, 1, CheckingLinks(0, I0));
    e := Follows(r, e, s7, 1, Open, s);
    assert s.names == map[T0 := I0, ObjectName(r.digest) := I0];
  }

  // Process 0 fails to unlink its source, rolls the object back and will try again.
  lemma ObjectRolledBack(r: Race) returns (e: seq<Event>, s: State)
    requires r.mayFail(ObjectName(r.digest))
    ensures Leads(r, e, s)
    ensures s == State(map[T0 := I0], FILES, map[0 := Publishing(Obj, 1), 1 := CheckingLinks(0, I0)], {})
  {
    hide Leads;
    var s8;
    e, s8 := LoserHoldsHandle(r);
    var s9 := Goto(s8, 0, RollingBack(Obj, 0, true));
    e := Follows(r, e, s8, 0, UnlinkFault(true), s9);
    s := Goto(s9.(names := s9.names - {ObjectName(r.digest)}), 0, Publishing(Obj, 1));
    e := Follows(r, e, s9, 0, Rollback, s);
    assert s.names == map[T0 := I0];
  }

  // Process 1 sees a single link, reads the file through its handle and accepts it.
  lemma LoserAccepts(r: Race) returns (e: seq<Event>, s: State)
    requires r.mayFail(ObjectName(r.digest))
    ensures Leads(r, e, s) && s == State(map[T0 := I0], FILES, map[0 := Publishing(Obj, 1), 1 := Committed], {})
  {
    hide Leads;
    var s10;
    e, s10 := ObjectRolledBack(r);
    assert NamesOf(s10.names, I0) == {T0};
    var s11 := Goto(s10, 1, Hashing(I0, []));
    e := Follows(r, e, s10, 1, CheckLinks, s11);
    s := Goto(s11, 1, Committed);
    e := Follows(r, e, s11, 1, Finish, s);
  }

  lemma LoserWritesRecord(r: Race) returns (e: seq<Event>, s: State)
    requires r.mayFail(ObjectName(r.digest))
    ensures Leads(r, e, s)
    ensures s == State(map[T0 := I0, T1R := I1R], ALL_FILES, map[0 := Publishing(Obj, 1), 1 := Publishing(Rec, 0)], {})
  {
    hide Leads;
    var s12;
    e, s12 := LoserAccepts(r);
    var s13 := CreateTemp(s12, 1, Rec);
    e := Follows(r, e, s12, 1, BeginRecord, s13);
    s := Goto(s13, 1, Publishing(Rec, 0));
    e := Follows(r, e, s13, 1, Close, s);
  }

  lemma LoserSucceeds(r: Race) returns (e: seq<Event>, s: State)
    requires r.mayFail(ObjectName(r.digest))
    ensures Leads(r, e, s)
    ensures s == State(map[T0 := I0, RecordName(r.id) := I1R], ALL_FILES,
                       map[0 := Publishing(Obj, 1), 1 := Returned(true)], {})
  {
    hide Leads;
    var s14;
    e, s14 := LoserWritesRecord(r);
    var s15 := Goto(s14.(names := s14.names[RecordName(r.id) := I1R]), 1, Linked(Rec, 0));
    e := Follows(r, e, s14, 1, Link, s15);
    s := Goto(s15.(names := s15.names - {T1R}), 1, Returned(true));
    e := Follows(r, e, s15, 1, Unlink, s);
    assert s.names == map[T0 := I0, RecordName(r.id) := I1R];
  }

  /** The failing input, for any identifier and digest: if the unlink behind the object name may fail, process 1 can
      return success while its object is not in the store. */
  lemma SuccessWithoutObject(r: Race) returns (events: seq<Event>, s: State)
    requires r.mayFail(ObjectName(r.digest))
    ensures Leads(r, events, s) && Succeeded(EnvOf(r), s, 1) && DigestOf(EnvOf(r), 1) == r.digest
    ensures ObjectName(r.digest) !in s.names
  {
    hide Leads;
    events, s := LoserSucceeds(r);
  }

  /** Whatever other unlinks may fail: success of an import implies that its object is there, in every run, if and
      only if no unlink behind the object name may fail. */
  lemma SuccessKeepsObjectIff(digest: Digest, mayFail: Name -> bool)
    ensures SuccessKeepsObject(digest, mayFail) <==> !mayFail(ObjectName(digest))
  {
    hide Run, Readable, FaultsWithin, ValidEnv;
    if mayFail(ObjectName(digest)) {
      var r := Race("artifact_0", digest, mayFail);
      var events, s := SuccessWithoutObject(r);
      NotThereNotReadable(s, ObjectName(digest));
    } else {
      forall env, events, s, p | IsRun(env, events, s) && Succeeded(env, s, p) && DigestOf(env, p) == digest &&
          FaultsWithin(env, events, mayFail)
        ensures Readable(s, ObjectName(digest))
      {
        WithinIsQuiet(env, events, mayFail, ObjectName(digest));
        SucceededHasBoth(env, events, s, p);
      }
    }
  }

  lemma NotThereNotReadable(s: State, n: Name)
    requires n !in s.names
    ensures !Readable(s, n)
  {
  }

  lemma WithinIsQuiet(env: Env, events: seq<Event>, mayFail: Name -> bool, n: Name)
    requires FaultsWithin(env, events, mayFail) && !mayFail(n)
    ensures Quiet(env, INIT, events, n)
  {
  }
}
