/** Why `LoadedIsInTheStore` needs the unlinks behind the two names of a load: record or object is rolled back
    between the open and the link-count check of the load. */
module StoreReadFault {
  import opened Wrappers
  import opened Bytes
  import opened ContentStore
  import opened StoreQuietRuns
  import opened StoreReads
  import opened StoreUnlinkFault
  import Descriptors

  /** Is what a load of `id` returns, with this digest, in the store, in every run whose unlinks fail only behind these
      names? */
  ghost predicate LoadsReadTheStore(id: string, digest: Digest, mayFail: Name -> bool) {
    forall env, events, s, p |
      IsRun(env, events, s) && HasLoaded(env, s, p) && FaultsWithin(env, events, mayFail) &&
      env.jobs(p).artifactId == id && s.procs[p].desc.digest == digest ::
      ReadFromTheStore(env, s, p)
  }

  const R0 := Inode(0, Rec)
  const T0R := TempName(0, Rec)
  const OWN_FILES: map<Inode, seq<byte>> := map[I0 := [], R0 := []]

  // ----- the record -----

  lemma ObjectCommitted(r: Race) returns (e: seq<Event>, s: State)
    ensures Leads(r, e, s)
    ensures s == State(map[ObjectName(r.digest) := I0], map[I0 := []], map[0 := Committed], {0})
  {
    hide Leads;
    Begins(r);
    MetaIsValid();
    var s1 := CreateTemp(INIT, 0, Obj);
    e := Follows(r, [], INIT, 0, Start, s1);
    var s2 := Goto(s1, 0, Publishing(Obj, 0));
    e := Follows(r, e, s1, 0, Close, s2);
    var s3 := Goto(s2.(names := s2.names[ObjectName(r.digest) := I0]), 0, Linked(Obj, 0));
    e := Follows(r, e, s2, 0, Link, s3);
    s := Goto(s3.(names := s3.names - {T0}, winners := {} + {0}), 0, Committed);
    e := Follows(r, e, s3, 0, Unlink, s);
    assert s.names == map[ObjectName(r.digest) := I0];
  }

  lemma RecordLinked(r: Race) returns (e: seq<Event>, s: State)
    ensures Leads(r, e, s)
    ensures s == State(map[ObjectName(r.digest) := I0, T0R := R0, RecordName(r.id) := R0], OWN_FILES,
                       map[0 := Linked(Rec, 0)], {0})
  {
    hide Leads;
    var s4;
    e, s4 := ObjectCommitted(r);
    var s5 := CreateTemp(s4, 0, Rec);
    e := Follows(r, e, s4, 0, BeginRecord, s5);
    var s6 := Goto(s5, 0, Publishing(Rec, 0));
    e := Follows(r, e, s5, 0, Close, s6);
    s := Goto(s6.(names := s6.names[RecordName(r.id) := R0]), 0, Linked(Rec, 0));
    e := Follows(r, e, s6, 0, Link, s);
  }

  // The loader, process 2, opens the record file before the unlink that will fail.
  lemma RecordOpened(r: Race) returns (e: seq<Event>, s: State)
    ensures Leads(r, e, s)
    ensures s == State(map[ObjectName(r.digest) := I0, T0R := R0, RecordName(r.id) := R0], OWN_FILES,
                       map[0 := Linked(Rec, 0), 2 := ReadingRecord(R0)], {0})
  {
    hide Leads;
    var s7;
    e, s7 := RecordLinked(r);
    var s8 := Goto(s7, 2, Resolving);
    e := Follows(r, e, s7, 2, Start, s8);
    s := Goto(s8, 2, ReadingRecord(R0));
    e := Follows(r, e, s8, 2, Open, s);
  }

  // The state of the disk while the loader goes on after the record was rolled back.
  function WithoutRecord(r: Race, pc: Pc): State {
    State(map[ObjectName(r.digest) := I0, T0R := R0], OWN_FILES, map[0 := Discarding(Rec, 0, false), 2 := pc], {0})
  }

  lemma RecordRolledBack(r: Race) returns (e: seq<Event>)
    requires r.mayFail(RecordName(r.id))
    ensures Leads(r, e, WithoutRecord(r, ReadingRecord(R0)))
  {
    hide Leads;
    var s9;
    e, s9 := RecordOpened(r);
    var s10 := Goto(s9, 0, RollingBack(Rec, 0, false));
    e := Follows(r, e, s9, 0, UnlinkFault(false), s10);
    var s11 := Goto(s10.(names := s10.names - {RecordName(r.id)}), 0, Discarding(Rec, 0, false));
    e := Follows(r, e, s10, 0, Rollback, s11);
    assert s11.names == map[ObjectName(r.digest) := I0, T0R := R0];
    assert s11 == WithoutRecord(r, ReadingRecord(R0));
  }

  // A step of the loader changes its program counter alone.
  lemma LoaderGoesOn(r: Race, events: seq<Event>, s: State, a: Action, pc: Pc) returns (longer: seq<Event>)
    requires Leads(r, events, s) && 2 in s.procs && !a.Start? && LoadStep(EnvOf(r), s, 2, s.procs[2], a) == Some(pc)
    ensures Leads(r, longer, Goto(s, 2, pc))
  {
    hide Leads, LoadStep;
    longer := Follows(r, events, s, 2, a, Goto(s, 2, pc));
  }

  lemma RecordAcceptedAnyway(r: Race) returns (e: seq<Event>)
    requires r.mayFail(RecordName(r.id))
    ensures Leads(r, e, WithoutRecord(r, Opening(ArtifactOf(r), 1)))
  {
    hide Leads;
    MetaIsValid();
    e := RecordRolledBack(r);
    var s := WithoutRecord(r, ReadingRecord(R0));
    assert NamesOf(s.names, R0) == {T0R};
    assert Descriptors.ValidDescriptor(ArtifactOf(r));
    e := LoaderGoesOn(r, e, s, CheckLinks, Opening(ArtifactOf(r), 1));
    assert Goto(s, 2, Opening(ArtifactOf(r), 1)) == WithoutRecord(r, Opening(ArtifactOf(r), 1));
  }

  function AfterPass(r: Race, pass: nat): Pc {
    if pass == 1 then Opening(ArtifactOf(r), 2) else Loaded(ArtifactOf(r), [])
  }

  lemma OnePass(r: Race, before: seq<Event>, pass: nat) returns (e: seq<Event>)
    requires Leads(r, before, WithoutRecord(r, Opening(ArtifactOf(r), pass)))
    ensures Leads(r, e, WithoutRecord(r, AfterPass(r, pass)))
  {
    hide Leads;
    var s0 := WithoutRecord(r, Opening(ArtifactOf(r), pass));
    var s1 := Goto(s0, 2, Inspecting(ArtifactOf(r), pass, I0));
    e := LoaderGoesOn(r, before, s0, Open, Inspecting(ArtifactOf(r), pass, I0));
    assert NamesOf(s1.names, I0) == {ObjectName(r.digest)};
    var s2 := Goto(s1, 2, Streaming(ArtifactOf(r), pass, I0, []));
    e := LoaderGoesOn(r, e, s1, CheckLinks, Streaming(ArtifactOf(r), pass, I0, []));
    e := LoaderGoesOn(r, e, s2, Finish, AfterPass(r, pass));
    assert Goto(s2, 2, AfterPass(r, pass)) == WithoutRecord(r, AfterPass(r, pass));
  }

  /** The failing input, for any identifier and digest: if the unlink behind the record name may fail, a load can
      return an artifact that has no record file. */
  lemma LoadWithoutRecord(r: Race) returns (e: seq<Event>, s: State)
    requires r.mayFail(RecordName(r.id))
    ensures Leads(r, e, s) && HasLoaded(EnvOf(r), s, 2) && s.procs[2].desc == ArtifactOf(r)
    ensures !ReadFromTheStore(EnvOf(r), s, 2)
  {
    hide Leads;
    e := RecordAcceptedAnyway(r);
    e := OnePass(r, e, 1);
    e := OnePass(r, e, 2);
    s := WithoutRecord(r, Loaded(ArtifactOf(r), []));
    assert RecordName(r.id) !in s.names;
  }

  // ----- the object -----

  // Process 1 has succeeded without its object, process 0 keeps trying to publish it, and process 2 loads.
  function WithoutObject(r: Race, attempt: nat, pc: Pc): State {
    State(map[T0 := I0, RecordName(r.id) := I1R], ALL_FILES,
          map[0 := Publishing(Obj, attempt), 1 := Returned(true), 2 := pc], {})
  }

  lemma RecordRead(r: Race) returns (e: seq<Event>)
    requires r.mayFail(ObjectName(r.digest))
    ensures Leads(r, e, WithoutObject(r, 1, Opening(ArtifactOf(r), 1)))
  {
    hide Leads;
    MetaIsValid();
    var s0;
    e, s0 := LoserSucceeds(r);
    var s1 := Goto(s0, 2, Resolving);
    e := Follows(r, e, s0, 2, Start, s1);
    e := LoaderGoesOn(r, e, s1, Open, ReadingRecord(I1R));
    var s2 := Goto(s1, 2, ReadingRecord(I1R));
    assert NamesOf(s2.names, I1R) == {RecordName(r.id)};
    assert Descriptors.ValidDescriptor(ArtifactOf(r));
    e := LoaderGoesOn(r, e, s2, CheckLinks, Opening(ArtifactOf(r), 1));
    assert Goto(s2, 2, Opening(ArtifactOf(r), 1)) == WithoutObject(r, 1, Opening(ArtifactOf(r), 1));
  }

  // The object is linked, opened by the loader, and rolled back.
  lemma ObjectOpened(r: Race, before: seq<Event>, attempt: nat, pass: nat) returns (e: seq<Event>)
    requires r.mayFail(ObjectName(r.digest)) && attempt < MAX_ATTEMPT
    requires Leads(r, before, WithoutObject(r, attempt, Opening(ArtifactOf(r), pass)))
    ensures Leads(r, e, WithoutObject(r, attempt + 1, Inspecting(ArtifactOf(r), pass, I0)))
  {
    hide Leads;
    var s0 := WithoutObject(r, attempt, Opening(ArtifactOf(r), pass));
    var s1 := Goto(s0.(names := s0.names[ObjectName(r.digest) := I0]), 0, Linked(Obj, attempt));
    e := Follows(r, before, s0, 0, Link, s1);
    e := LoaderGoesOn(r, e, s1, Open, Inspecting(ArtifactOf(r), pass, I0));
    e := ObjectGone(r, e, Goto(s1, 2, Inspecting(ArtifactOf(r), pass, I0)), attempt, pass);
  }

  lemma ObjectGone(r: Race, before: seq<Event>, s: State, attempt: nat, pass: nat) returns (e: seq<Event>)
    requires r.mayFail(ObjectName(r.digest)) && attempt < MAX_ATTEMPT && Leads(r, before, s)
    requires s == State(map[T0 := I0, RecordName(r.id) := I1R, ObjectName(r.digest) := I0], ALL_FILES,
                        map[0 := Linked(Obj, attempt), 1 := Returned(true),
                            2 := Inspecting(ArtifactOf(r), pass, I0)], {})
    ensures Leads(r, e, WithoutObject(r, attempt + 1, Inspecting(ArtifactOf(r), pass, I0)))
  {
    hide Leads;
    var s1 := Goto(s, 0, RollingBack(Obj, attempt, true));
    e := Follows(r, before, s, 0, UnlinkFault(true), s1);
    var s2 := Goto(s1.(names := s1.names - {ObjectName(r.digest)}), 0, Publishing(Obj, attempt + 1));
    e := Follows(r, e, s1, 0, Rollback, s2);
    assert s2.names == map[T0 := I0, RecordName(r.id) := I1R];
    assert s2 == WithoutObject(r, attempt + 1, Inspecting(ArtifactOf(r), pass, I0));
  }

  // The loader sees a single link and accepts the file.
  lemma ObjectAcceptedAnyway(r: Race, before: seq<Event>, attempt: nat, pass: nat) returns (e: seq<Event>)
    requires Leads(r, before, WithoutObject(r, attempt, Inspecting(ArtifactOf(r), pass, I0)))
    ensures Leads(r, e, WithoutObject(r, attempt, AfterPass(r, pass)))
  {
    hide Leads;
    var s0 := WithoutObject(r, attempt, Inspecting(ArtifactOf(r), pass, I0));
    assert NamesOf(s0.names, I0) == {T0};
    e := LoaderGoesOn(r, before, s0, CheckLinks, Streaming(ArtifactOf(r), pass, I0, []));
    var s1 := Goto(s0, 2, Streaming(ArtifactOf(r), pass, I0, []));
    e := LoaderGoesOn(r, e, s1, Finish, AfterPass(r, pass));
    assert Goto(s1, 2, AfterPass(r, pass)) == WithoutObject(r, attempt, AfterPass(r, pass));
  }

  /** The failing input, for any identifier and digest: if the unlink behind the object name may fail, a load can return
      bytes whose object is not in the store. */
  lemma LoadWithoutObject(r: Race) returns (e: seq<Event>, s: State)
    requires r.mayFail(ObjectName(r.digest))
    ensures Leads(r, e, s) && HasLoaded(EnvOf(r), s, 2) && s.procs[2].desc == ArtifactOf(r)
    ensures !ReadFromTheStore(EnvOf(r), s, 2)
  {
    hide Leads;
    e := RecordRead(r);
    e := ObjectOpened(r, e, 1, 1);
    e := ObjectAcceptedAnyway(r, e, 2, 1);
    e := ObjectOpened(r, e, 2, 2);
    e := ObjectAcceptedAnyway(r, e, 3, 2);
    s := WithoutObject(r, 3, Loaded(ArtifactOf(r), []));
    assert ObjectName(r.digest) !in s.names;
  }

  /** Whatever other unlinks may fail: every load of `id` that returns this digest returns what is in the store, in
      every run, if and only if no unlink behind the record name or the object name may fail. */
  lemma LoadsReadTheStoreIff(id: string, digest: Digest, mayFail: Name -> bool)
    ensures LoadsReadTheStore(id, digest, mayFail) <==> !mayFail(RecordName(id)) && !mayFail(ObjectName(digest))
  {
    hide ReadFromTheStore, Run, FaultsWithin, ContentStore.ValidEnv;
    if mayFail(RecordName(id)) {
      var events, s := LoadWithoutRecord(Race(id, digest, mayFail));
    } else if mayFail(ObjectName(digest)) {
      var events, s := LoadWithoutObject(Race(id, digest, mayFail));
    } else {
      forall env, events, s, p | IsRun(env, events, s) && HasLoaded(env, s, p) && FaultsWithin(env, events, mayFail) &&
          env.jobs(p).artifactId == id && s.procs[p].desc.digest == digest
        ensures ReadFromTheStore(env, s, p)
      {
        WithinIsQuiet(env, events, mayFail, RecordName(id));
        WithinIsQuiet(env, events, mayFail, ObjectName(digest));
        LoadedIsInTheStore(env, events, s, p);
      }
    }
  }
}
