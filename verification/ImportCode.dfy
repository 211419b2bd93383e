/** The code of an import, call by call: `import_artifact`, `commit_content_object`, `publish_file_no_replace`,
    `retry_transient`, `verify_existing_content_object` and `write_json_atomic`. Where `interference` is set the other
    processes may take any number of steps before every call, and where `faults` is set every call may fail. Each method
    is proved to be a run of the step system, so what is proved of all runs holds of what it returns; and alone and
    without faults it is proved to succeed exactly where it should. */
module ImportCode {
  import opened Wrappers
  import opened Bytes
  import opened ContentStore
  import opened StoreSafety
  import opened StoreRefinement
  import Descriptors

  // What a call to the file system reports.
  datatype Io = Done | AlreadyExists | Failed(transient: bool)

  class Disk {
    const env: Env
    const faults: bool
    const interference: bool
    var state: State
    ghost var trace: seq<Event>

    ghost predicate Valid()
      reads this
    {
      ValidEnv(env) && Run(env, INIT, trace) == Some(state) && Inv(env, state)
    }

    ghost predicate At(p: Pid, pc: Pc)
      reads this
    {
      Valid() && p in state.procs && state.procs[p] == pc && env.jobs(p).Import?
    }

    // This process is alone and none of its calls fails.
    predicate Calm() {
      !faults && !interference
    }

    constructor (env: Env, faults: bool, interference: bool)
      requires ValidEnv(env)
      ensures Valid() && this.env == env && state == INIT
      ensures this.faults == faults && this.interference == interference
    {
      this.env, this.faults, this.interference := env, faults, interference;
      state := INIT;
      trace := [];
    }

    // The other processes run.
    method Others(p: Pid)
      requires Valid()
      modifies this
      ensures Valid()
      ensures p in state.procs <==> p in old(state.procs)
      ensures p in state.procs ==> state.procs[p] == old(state.procs[p])
      ensures forall ino | Published(env, old(state), ino) :: Published(env, state, ino)
      ensures !interference ==> state == old(state)
    {
      var events: seq<Event> := *;
      if interference && forall e | e in events :: e.p != p {
        match Run(env, state, events)
        case None =>
        case Some(s) =>
          RunsCompose(env, INIT, trace, state, events, s);
          InvRun(env, state, events, s);
          OthersKeepPc(env, state, events, s, p);
          forall ino | Published(env, state, ino)
            ensures Published(env, s, ino)
          {
            PublishedForever(env, state, events, s, ino);
          }
          trace := trace + events;
          state := s;
      }
    }

    // The others run, then `p` makes one call.
    method Call(p: Pid, a: Action, ghost pc: Pc)
      requires At(p, pc) && CanCall(env, p, pc, a)
      modifies this
      ensures p in state.procs && At(p, state.procs[p]) && Outcome(env, p, pc, a, state.procs[p])
      ensures forall ino | Published(env, old(state), ino) :: Published(env, state, ino)
      ensures !interference ==> ImportStep(env, old(state), p, pc, a) == Some(state)
    {
      Others(p);
      CallIsPossible(env, state, p, pc, a);
      Take(p, a, pc);
    }

    // One step of `p`.
    method Take(p: Pid, a: Action, ghost pc: Pc)
      requires At(p, pc) && Step(env, state, p, a).Some? && !a.Start?
      modifies this
      ensures p in state.procs && At(p, state.procs[p]) && Outcome(env, p, pc, a, state.procs[p])
      ensures forall ino | Published(env, old(state), ino) :: Published(env, state, ino)
      ensures ImportStep(env, old(state), p, pc, a) == Some(state)
    {
      var s' := Step(env, state, p, a).value;
      InvStep(env, state, p, a, s');
      CallOutcome(env, state, p, a, s');
      forall ino | Published(env, state, ino)
        ensures Published(env, s', ino)
      {
        PublishedStays(env, state, s', p, ino);
      }
      assert (trace + [Event(p, a)])[..|trace|] == trace;
      trace := trace + [Event(p, a)];
      state := s';
    }

    // ----- publish_file_no_replace -----

    method HardLink(p: Pid, phase: Phase, ghost k: nat) returns (r: Io)
      requires At(p, Publishing(phase, k))
      modifies this
      ensures r.Done? ==> At(p, Linked(phase, k))
      ensures r.AlreadyExists? ==> At(p, Discarding(phase, 0, phase.Obj?))
      ensures r.Failed? ==> At(p, RetryPublish(phase, k, r.transient))
      ensures Calm() ==> Linking(env, old(state.names), p, phase, r, state.names)
    {
      hide Run, Inv, Step, ImportStep;
      ghost var before := state;
      var fault: bool, transient: bool := *, *;
      if fault && faults {
        Call(p, LinkFault(transient), Publishing(phase, k));
        r := Failed(transient);
      } else {
        Call(p, Link, Publishing(phase, k));
        r := if state.procs[p].Linked? then Done else AlreadyExists;
        if !interference { LinkDoes(env, before, p, phase, k, state); }
      }
    }

    method PublishFileNoReplace(p: Pid, phase: Phase, ghost k: nat) returns (r: Io)
      requires At(p, Publishing(phase, k))
      modifies this
      ensures r.Done? ==> At(p, AfterPublish(phase))
      ensures r.AlreadyExists? ==> At(p, Discarding(phase, 0, phase.Obj?))
      ensures r.Failed? ==> At(p, RetryPublish(phase, k, r.transient))
      ensures Calm() ==> Publication(env, old(state.names), p, phase, r, state.names)
    {
      hide Run, Inv, Step, ImportStep;
      r := HardLink(p, phase, k);
      ghost var before := state;
      if r.Done? {
        var fault: bool, transient: bool := *, *;
        if fault && faults && env.unlinkMayFail {
          Call(p, UnlinkFault(transient), Linked(phase, k));
          var rollbackFault: bool := *;
          if rollbackFault && faults {
            Call(p, RollbackFault, RollingBack(phase, k, transient));
            r := Failed(false);
          } else {
            Call(p, Rollback, RollingBack(phase, k, transient));
            r := Failed(transient);
          }
        } else {
          Call(p, Unlink, Linked(phase, k));
          if !interference { UnlinkDoes(env, before, p, phase, k, state); }
        }
      }
    }

    // `retry_transient` around the publication.
    method RetryPublication(p: Pid, phase: Phase) returns (r: Io)
      requires At(p, Publishing(phase, 0))
      modifies this
      ensures r.Done? ==> At(p, AfterPublish(phase))
      ensures r.AlreadyExists? ==> At(p, Discarding(phase, 0, phase.Obj?))
      ensures r.Failed? ==> At(p, Discarding(phase, 0, false))
      ensures Calm() ==> Publication(env, old(state.names), p, phase, r, state.names)
    {
      hide Run, Inv, Step;
      for attempt := 0 to 25
        invariant attempt <= 24 && At(p, Publishing(phase, attempt))
        invariant Calm() ==> state == old(state)
      {
        r := PublishFileNoReplace(p, phase, attempt);
        if !(r.Failed? && r.transient && attempt < 24) { return; }
      }
      assert false;
    }

    // `retry_transient` around the removal of the temporary file.
    method RetryRemoveTemp(p: Pid, phase: Phase, ghost loser: bool) returns (removed: bool)
      requires At(p, Discarding(phase, 0, loser))
      modifies this
      ensures removed ==> At(p, if loser then Verifying(0) else Returned(false))
      ensures !removed ==> At(p, Returned(false))
      ensures Calm() ==> removed && state.names == old(state.names) - {TempName(p, phase)}
    {
      hide Run, Inv, Step, ImportStep;
      for attempt := 0 to 25
        invariant attempt <= 24 && At(p, Discarding(phase, attempt, loser))
        invariant Calm() ==> state == old(state)
      {
        ghost var before := state;
        var fault: bool, transient: bool := *, *;
        if fault && faults {
          Call(p, DiscardFault(transient), Discarding(phase, attempt, loser));
          if !(transient && attempt < 24) { return false; }
        } else {
          Call(p, Discard, Discarding(phase, attempt, loser));
          if !interference { DiscardDoes(env, before, p, phase, attempt, loser, state); }
          return true;
        }
      }
      assert false;
    }

    // ----- verify_existing_content_object -----

    // One attempt: open the object and check its link count. `settled` unless it is worth waiting.
    method TryOpen(p: Pid, attempt: nat) returns (ino: Inode, settled: bool, ok: bool)
      requires At(p, Verifying(attempt)) && attempt <= 24
      modifies this
      ensures !settled ==> attempt < 24 && At(p, Verifying(attempt + 1))
      ensures settled ==> At(p, if ok then Hashing(ino, []) else Returned(false))
      ensures ok ==> settled
      ensures Calm() ==>
        state.names == old(state.names) && (ok <==> SingleLinked(state.names, Dest(env, p, Obj))) &&
        (ok ==> ino == state.names[Dest(env, p, Obj)])
    {
      hide Run, Inv, Step, Published, ImportStep, LinkCount;
      ghost var before := state;
      ino, settled, ok := Inode(p, Obj), true, false;
      var fault: bool, transient: bool := *, *;
      if fault && faults {
        Call(p, OpenFault(transient), Verifying(attempt));
        settled := !(transient && attempt < 24);
        return;
      }
      Call(p, Open, Verifying(attempt));
      if !interference { OpenDoes(env, before, p, attempt, state); }
      ghost var afterOpen := state;
      if !state.procs[p].CheckingLinks? { return; }
      ino := state.procs[p].ino;
      Call(p, CheckLinks, CheckingLinks(attempt, ino));
      if !interference { CheckDoes(env, afterOpen, p, attempt, ino, state); }
      ok := state.procs[p].Hashing?;
      settled := ok || attempt == 24;
    }

    // Opens the object and checks its link count, at most 25 times.
    method OpenExisting(p: Pid) returns (ino: Inode, ok: bool)
      requires At(p, Verifying(0))
      modifies this
      ensures At(p, if ok then Hashing(ino, []) else Returned(false))
      ensures Calm() ==>
        state.names == old(state.names) && (ok <==> SingleLinked(state.names, Dest(env, p, Obj))) &&
        (ok ==> ino == state.names[Dest(env, p, Obj)])
    {
      hide Run, Inv, Step, Published, LinkCount;
      ino := Inode(p, Obj);
      for attempt := 0 to 25
        invariant attempt <= 24 && At(p, Verifying(attempt))
        invariant Calm() ==> state.names == old(state.names)
      {
        var settled;
        ino, settled, ok := TryOpen(p, attempt);
        if settled { return; }
      }
      assert false;
    }

    // Reads the open file to its end, in reads of any size.
    method ReadToEnd(p: Pid, ino: Inode) returns (ok: bool)
      requires At(p, Hashing(ino, [])) && env.jobs(ino.p).Import? && Published(env, state, ino)
      requires state.files[ino] == env.jobs(ino.p).bytes
      modifies this
      ensures At(p, if ok then Hashing(ino, env.jobs(ino.p).bytes) else Returned(false))
      ensures Calm() ==> ok && state.names == old(state.names)
    {
      hide Run, Inv, Step, ImportStep, Published;
      ghost var all := env.jobs(ino.p).bytes;
      var size := |env.jobs(ino.p).bytes|;
      var done := 0;
      while done < size
        invariant 0 <= done <= size && At(p, Hashing(ino, all[..done]))
        invariant Calm() ==> state.names == old(state.names)
      {
        var read := ReadOnce(p, ino, done);
        if read == 0 { return false; }
        done := done + read;
      }
      assert all[..done] == all;
      ok := true;
    }

    // One `read`: some bytes, or 0 for a failing call, after which the import has returned.
    method ReadOnce(p: Pid, ino: Inode, done: nat) returns (read: nat)
      requires env.jobs(ino.p).Import? && done < |env.jobs(ino.p).bytes|
      requires At(p, Hashing(ino, env.jobs(ino.p).bytes[..done]))
      modifies this
      ensures done + read <= |env.jobs(ino.p).bytes|
      ensures At(p, if read != 0 then Hashing(ino, env.jobs(ino.p).bytes[..done + read]) else Returned(false))
      ensures Calm() ==> read != 0 && state.names == old(state.names)
    {
      hide Run, Inv, Step, ImportStep, Published, LinkCount;
      ghost var before, acc := state, env.jobs(ino.p).bytes[..done];
      var size := |env.jobs(ino.p).bytes|;
      var fault: bool, n: nat := *, *;
      if fault && faults {
        Call(p, Fault, Hashing(ino, acc));
        return 0;
      }
      read := if 0 < n <= size - done then n else size - done;
      Call(p, ReadChunk(read), Hashing(ino, acc));
      if !interference { ReadDoes(env, before, p, ino, acc, read, state); }
    }

    // `verify_open_private_file`: hash the open file and compare hash and length.
    method HashOpenFile(p: Pid, ino: Inode) returns (ok: bool)
      requires At(p, Hashing(ino, []))
      modifies this
      ensures At(p, if ok then Committed else Returned(false))
      ensures Calm() ==>
        state.names == old(state.names) && env.jobs(ino.p).Import? &&
        (ok <==> |env.jobs(ino.p).bytes| == |env.jobs(p).bytes|)
    {
      hide Run, Inv, Step, ImportStep;
      HandleIsPublished(env, state, p);
      ok := ReadToEnd(p, ino);
      if ok {
        ghost var before := state;
        Call(p, Finish, Hashing(ino, env.jobs(ino.p).bytes));
        if !interference { FinishDoes(env, before, p, ino, state); }
        ok := state.procs[p].Committed?;
      }
    }

    method CommitContentObject(p: Pid) returns (ok: bool)
      requires At(p, Publishing(Obj, 0))
      modifies this
      ensures At(p, if ok then Committed else Returned(false))
      ensures Calm() ==> (ok <==> ObjectFits(env, old(state), p))
      ensures Calm() && ok ==> forall id :: RecordName(id) in state.names <==> RecordName(id) in old(state.names)
    {
      hide Run, Inv, Step, LinkCount;
      TempIsOwn(env, state, p, Obj);
      ghost var start := state;
      var r := RetryPublication(p, Obj);
      match r
      case Done => ok := true;
      case AlreadyExists =>
        ok := RetryRemoveTemp(p, Obj, true);
        if Calm() { TempGone(env, start, p, state.names); }
        if ok {
          var ino;
          ino, ok := OpenExisting(p);
          if ok { ok := HashOpenFile(p, ino); }
        }
      case Failed(_) =>
        var removed := RetryRemoveTemp(p, Obj, false);
        ok := false;
    }

    // Writes the temporary file of a phase, in writes of any size. A failing write leaves the file behind.
    method WriteTemp(p: Pid, phase: Phase) returns (ok: bool)
      requires At(p, Writing(phase, 0))
      modifies this
      ensures At(p, if ok then Publishing(phase, 0) else Returned(false))
      ensures !faults ==> ok
      ensures Calm() ==> state.names == old(state.names)
    {
      hide Run, Inv, Step, ImportStep;
      var size := |Content(env, p, phase)|;
      var done := 0;
      while done < size
        invariant 0 <= done <= size && At(p, Writing(phase, done))
        invariant Calm() ==> state.names == old(state.names)
      {
        ghost var before := state;
        var fault: bool, n: nat := *, *;
        if fault && faults {
          Call(p, Fault, Writing(phase, done));
          return false;
        }
        var written := if 0 < n <= size - done then n else size - done;
        Call(p, WriteChunk(written), Writing(phase, done));
        if !interference { WriteDoes(env, before, p, phase, done, WriteChunk(written), state); }
        done := done + written;
      }
      ghost var before := state;
      Call(p, Close, Writing(phase, done));
      if !interference { WriteDoes(env, before, p, phase, done, Close, state); }
      ok := true;
    }

    // `write_json_atomic` of the artifact record.
    method WriteRecord(p: Pid) returns (ok: bool)
      requires At(p, Committed)
      modifies this
      ensures At(p, Returned(ok))
      ensures Calm() ==> (ok <==> Dest(env, p, Rec) !in old(state.names))
    {
      hide Run, Inv, Step, ImportStep;
      ghost var before := state;
      Call(p, BeginRecord, Committed);
      if !interference { BeginDoes(env, before, p, state); }
      ok := WriteTemp(p, Rec);
      if ok {
        var r := RetryPublication(p, Rec);
        ok := r.Done?;
        if !ok { var removed := RetryRemoveTemp(p, Rec, false); }
      }
    }

    /** An import. When it reports success and no unlink can fail, its object and record are stored, whatever the
        other processes did meanwhile. Alone and without faults it succeeds exactly if the capture contract holds, the
        identifier is unused, and the object is new or is there under a single link with the imported length. */
    method ImportArtifact(p: Pid) returns (ok: bool)
      requires Valid() && p !in state.procs && env.jobs(p).Import?
      modifies this
      ensures At(p, Returned(ok))
      ensures ok ==> Descriptors.ValidCapture(env.jobs(p).meta)
      ensures ok ==> Owns(env, state, p, Rec) && TempName(p, Obj) !in state.names && TempName(p, Rec) !in state.names
      ensures ok && !env.unlinkMayFail ==> Stored(env, state, p)
      ensures Calm() ==>
        (ok <==> Descriptors.ValidCapture(env.jobs(p).meta) &&
                 RecordName(env.jobs(p).artifactId) !in old(state.names) &&
                 FileFits(old(state), ObjectName(env.hash(env.jobs(p).bytes)), |env.jobs(p).bytes|))
    {
      FitsIsFile(env, state, p);
      hide Run, Inv, Step, LinkCount, ObjectFits, FileFits;
      ghost var start := state;
      var valid := Descriptors.ValidateCaptureContract(env.jobs(p).meta);
      Begin(p);
      if Calm() && state.procs[p].Writing? { StartFits(env, start, p, state); }
      if !valid {
        ok := false;
      } else {
        ghost var begun := state;
        ok := WriteTemp(p, Obj);
        if Calm() { SameNamesFit(env, begun, state, p); }
        if ok { ok := CommitContentObject(p); }
        if ok { ok := WriteRecord(p); }
      }
      if ok { SuccessMeans(env, trace, state, p); }
    }

    // The first call of an import.
    method Begin(p: Pid)
      requires Valid() && p !in state.procs && env.jobs(p).Import?
      modifies this
      ensures At(p, if Descriptors.ValidCapture(env.jobs(p).meta) then Writing(Obj, 0) else Returned(false))
      ensures !interference ==> state == StartStep(env, old(state), p)
    {
      Others(p);
      var s' := Step(env, state, p, Start).value;
      InvStep(env, state, p, Start, s');
      assert (trace + [Event(p, Start)])[..|trace|] == trace;
      trace := trace + [Event(p, Start)];
      state := s';
    }
  }

  // ----- what a call of a process alone does -----

  predicate SingleLinked(names: map<Name, Inode>, n: Name) {
    n in names && LinkCount(names, names[n]) == 1
  }

  /** The name is free, or denotes a file with one link and of this length. */
  predicate FileFits(s: State, n: Name, length: nat) {
    n !in s.names || (LinkCount(s.names, s.names[n]) == 1 && s.names[n] in s.files && |s.files[s.names[n]]| == length)
  }

  // The same of the object name of an import, by what the file's creator had to write.
  predicate ObjectFits(env: Env, s: State, p: Pid)
    requires env.jobs(p).Import?
  {
    var n := ObjectName(env.hash(env.jobs(p).bytes));
    n !in s.names ||
    (SingleLinked(s.names, n) && env.jobs(s.names[n].p).Import? &&
     |env.jobs(s.names[n].p).bytes| == |env.jobs(p).bytes|)
  }

  ghost predicate Linking(env: Env, names: map<Name, Inode>, p: Pid, phase: Phase, r: Io, names': map<Name, Inode>)
    requires env.jobs(p).Import?
  {
    var dest := Dest(env, p, phase);
    if dest in names then r.AlreadyExists? && names' == names
    else r.Done? && names' == names[dest := Inode(p, phase)]
  }

  ghost predicate Publication(env: Env, names: map<Name, Inode>, p: Pid, phase: Phase, r: Io, names': map<Name, Inode>)
    requires env.jobs(p).Import?
  {
    var dest := Dest(env, p, phase);
    if dest in names then r.AlreadyExists? && names' == names
    else r.Done? && names' == names[dest := Inode(p, phase)] - {TempName(p, phase)}
  }

  lemma LinkDoes(env: Env, s: State, p: Pid, phase: Phase, k: nat, s': State)
    requires env.jobs(p).Import? && ImportStep(env, s, p, Publishing(phase, k), Link) == Some(s')
    ensures Linking(env, s.names, p, phase, if s'.procs[p].Linked? then Done else AlreadyExists, s'.names)
  {
  }

  lemma UnlinkDoes(env: Env, s: State, p: Pid, phase: Phase, k: nat, s': State)
    requires env.jobs(p).Import? && ImportStep(env, s, p, Linked(phase, k), Unlink) == Some(s')
    ensures s'.names == s.names - {TempName(p, phase)}
  {
  }

  lemma DiscardDoes(env: Env, s: State, p: Pid, phase: Phase, k: nat, loser: bool, s': State)
    requires env.jobs(p).Import? && ImportStep(env, s, p, Discarding(phase, k, loser), Discard) == Some(s')
    ensures s'.names == s.names - {TempName(p, phase)}
  {
  }

  lemma OpenDoes(env: Env, s: State, p: Pid, k: nat, s': State)
    requires env.jobs(p).Import? && ImportStep(env, s, p, Verifying(k), Open) == Some(s')
    ensures s'.names == s.names
    ensures var n := Dest(env, p, Obj);
      s'.procs[p] == if n in s.names then CheckingLinks(k, s.names[n]) else Returned(false)
  {
  }

  lemma CheckDoes(env: Env, s: State, p: Pid, k: nat, ino: Inode, s': State)
    requires env.jobs(p).Import? && ImportStep(env, s, p, CheckingLinks(k, ino), CheckLinks) == Some(s')
    ensures s'.names == s.names && (s'.procs[p].Hashing? <==> LinkCount(s.names, ino) == 1)
  {
  }

  lemma ReadDoes(env: Env, s: State, p: Pid, ino: Inode, acc: seq<byte>, n: nat, s': State)
    requires env.jobs(p).Import? && ImportStep(env, s, p, Hashing(ino, acc), ReadChunk(n)) == Some(s')
    ensures s'.names == s.names
  {
  }

  lemma FinishDoes(env: Env, s: State, p: Pid, ino: Inode, s': State)
    requires Inv(env, s) && p in s.procs && env.jobs(p).Import? && env.jobs(ino.p).Import?
    requires s.procs[p] == Hashing(ino, env.jobs(ino.p).bytes)
    requires ImportStep(env, s, p, Hashing(ino, env.jobs(ino.p).bytes), Finish) == Some(s')
    ensures s'.names == s.names
    ensures s'.procs[p].Committed? <==> |env.jobs(ino.p).bytes| == |env.jobs(p).bytes|
  {
    assert ProcOk(env, s, p);
  }

  lemma WriteDoes(env: Env, s: State, p: Pid, phase: Phase, done: nat, a: Action, s': State)
    requires env.jobs(p).Import? && ImportStep(env, s, p, Writing(phase, done), a) == Some(s')
    ensures s'.names == s.names
  {
  }

  lemma BeginDoes(env: Env, s: State, p: Pid, s': State)
    requires env.jobs(p).Import? && ImportStep(env, s, p, Committed, BeginRecord) == Some(s')
    ensures s'.names == s.names[TempName(p, Rec) := Inode(p, Rec)]
  {
  }

  lemma TempIsOwn(env: Env, s: State, p: Pid, phase: Phase)
    requires Inv(env, s) && p in s.procs && env.jobs(p).Import? && s.procs[p] == Publishing(phase, 0)
    ensures TempName(p, phase) in s.names && s.names[TempName(p, phase)] == Inode(p, phase) && !Owns(env, s, p, phase)
  {
    assert ProcOk(env, s, p);
  }

  // Without the temporary name of a loser every other file has the links it had.
  lemma TempGone(env: Env, s: State, p: Pid, names: map<Name, Inode>)
    requires env.jobs(p).Import? && TempName(p, Obj) in s.names && s.names[TempName(p, Obj)] == Inode(p, Obj)
    requires !Owns(env, s, p, Obj) && names == s.names - {TempName(p, Obj)}
    ensures var n := Dest(env, p, Obj);
      (n in names <==> n in s.names) && (n in names ==> names[n] == s.names[n]) &&
      (SingleLinked(names, n) <==> SingleLinked(s.names, n))
  {
    var n := Dest(env, p, Obj);
    if n in names { assert NamesOf(names, names[n]) == NamesOf(s.names, names[n]); }
  }

  lemma StartFits(env: Env, s: State, p: Pid, s': State)
    requires Inv(env, s) && p !in s.procs && env.jobs(p).Import? && s' == StartStep(env, s, p)
    requires Descriptors.ValidCapture(env.jobs(p).meta)
    ensures ObjectFits(env, s', p) <==> ObjectFits(env, s, p)
    ensures forall id :: RecordName(id) in s'.names <==> RecordName(id) in s.names
  {
    var n := ObjectName(env.hash(env.jobs(p).bytes));
    if n in s.names {
      assert NameOk(env, s, n);
      assert TempName(p, Obj) !in s.names;
      assert NamesOf(s'.names, s.names[n]) == NamesOf(s.names, s.names[n]);
    }
  }

  lemma FitsIsFile(env: Env, s: State, p: Pid)
    requires Inv(env, s) && env.jobs(p).Import?
    ensures ObjectFits(env, s, p) <==> FileFits(s, ObjectName(env.hash(env.jobs(p).bytes)), |env.jobs(p).bytes|)
  {
    assert NameOk(env, s, ObjectName(env.hash(env.jobs(p).bytes)));
  }

  lemma SameNamesFit(env: Env, s: State, s': State, p: Pid)
    requires env.jobs(p).Import? && s'.names == s.names
    ensures ObjectFits(env, s', p) <==> ObjectFits(env, s, p)
  {
  }

  // The calls an import at `pc` can make.
  predicate CanCall(env: Env, p: Pid, pc: Pc, a: Action)
    requires env.jobs(p).Import?
  {
    match (pc, a)
    case (Writing(phase, done), WriteChunk(n)) => 0 < n && done + n <= |Content(env, p, phase)|
    case (Writing(phase, done), Close) => done == |Content(env, p, phase)|
    case (Writing(_, _), Fault) => true
    case (Publishing(_, _), Link) => true
    case (Publishing(_, _), LinkFault(_)) => true
    case (Linked(_, _), Unlink) => true
    case (Linked(_, _), UnlinkFault(_)) => env.unlinkMayFail
    case (RollingBack(_, _, _), Rollback) => true
    case (RollingBack(_, _, _), RollbackFault) => true
    case (Discarding(_, _, _), Discard) => true
    case (Discarding(_, _, _), DiscardFault(_)) => true
    case (Verifying(_), Open) => true
    case (Verifying(_), OpenFault(_)) => true
    case (CheckingLinks(_, _), CheckLinks) => true
    case (Hashing(ino, acc), ReadChunk(n)) =>
      0 < n && env.jobs(ino.p).Import? && |acc| + n <= |env.jobs(ino.p).bytes|
    case (Hashing(ino, acc), Finish) => env.jobs(ino.p).Import? && |acc| == |env.jobs(ino.p).bytes|
    case (Hashing(_, _), Fault) => true
    case (Committed, BeginRecord) => true
    case _ => false
  }

  // Where a call can lead.
  predicate Outcome(env: Env, p: Pid, pc: Pc, a: Action, pc': Pc)
    requires env.jobs(p).Import?
  {
    match (pc, a)
    case (Writing(phase, done), WriteChunk(n)) => pc' == Writing(phase, done + n)
    case (Writing(phase, done), Close) => pc' == Publishing(phase, 0)
    case (Publishing(phase, k), Link) => pc' == Linked(phase, k) || pc' == Discarding(phase, 0, phase.Obj?)
    case (Publishing(phase, k), LinkFault(transient)) => pc' == RetryPublish(phase, k, transient)
    case (Linked(phase, k), Unlink) => pc' == AfterPublish(phase)
    case (Linked(phase, k), UnlinkFault(transient)) => pc' == RollingBack(phase, k, transient)
    case (RollingBack(phase, k, transient), Rollback) => pc' == RetryPublish(phase, k, transient)
    case (RollingBack(phase, k, _), RollbackFault) => pc' == Discarding(phase, 0, false)
    case (Discarding(phase, k, loser), Discard) => pc' == if loser then Verifying(0) else Returned(false)
    case (Discarding(phase, k, loser), DiscardFault(transient)) =>
      pc' == if transient && k < MAX_ATTEMPT then Discarding(phase, k + 1, loser) else Returned(false)
    case (Verifying(k), Open) => pc' == Returned(false) || (pc'.CheckingLinks? && pc'.attempt == k)
    case (Verifying(k), OpenFault(transient)) =>
      pc' == if transient && k < MAX_ATTEMPT then Verifying(k + 1) else Returned(false)
    case (CheckingLinks(k, ino), CheckLinks) =>
      pc' == Hashing(ino, []) || pc' == if k < MAX_ATTEMPT then Verifying(k + 1) else Returned(false)
    case (Hashing(ino, acc), ReadChunk(n)) =>
      env.jobs(ino.p).Import? && |acc| + n <= |env.jobs(ino.p).bytes| &&
      pc' == Hashing(ino, env.jobs(ino.p).bytes[..|acc| + n])
    case (Hashing(_, _), Finish) => pc' == Committed || pc' == Returned(false)
    case (Committed, BeginRecord) => pc' == Writing(Rec, 0)
    case (_, Fault) => pc' == Returned(false)
    case _ => false
  }

  lemma CallIsPossible(env: Env, s: State, p: Pid, pc: Pc, a: Action)
    requires Inv(env, s) && p in s.procs && s.procs[p] == pc && env.jobs(p).Import? && CanCall(env, p, pc, a)
    ensures Step(env, s, p, a).Some?
  {
    assert ProcOk(env, s, p);
    if pc.Hashing? { assert pc.ino == Inode(pc.ino.p, Obj); }
  }

  lemma HandleIsPublished(env: Env, s: State, p: Pid)
    requires Inv(env, s) && p in s.procs && env.jobs(p).Import? && s.procs[p].Hashing?
    ensures Published(env, s, s.procs[p].ino) && s.files[s.procs[p].ino] == env.jobs(s.procs[p].ino.p).bytes
  {
    assert ProcOk(env, s, p);
    assert s.procs[p].ino == Inode(s.procs[p].ino.p, Obj);
  }

  lemma CallOutcome(env: Env, s: State, p: Pid, a: Action, s': State)
    requires Inv(env, s) && p in s.procs && env.jobs(p).Import? && Step(env, s, p, a) == Some(s') && !a.Start?
    ensures p in s'.procs && Outcome(env, p, s.procs[p], a, s'.procs[p])
  {
    hide Inv;
    if s.procs[p].Hashing? { HandleIsPublished(env, s, p); }
    ImportOutcome(env, s, p, s.procs[p], a, s');
  }

  lemma ImportOutcome(env: Env, s: State, p: Pid, pc: Pc, a: Action, s': State)
    requires env.jobs(p).Import? && ImportStep(env, s, p, pc, a) == Some(s')
    requires pc.Hashing? ==>
      env.jobs(pc.ino.p).Import? && pc.ino in s.files && s.files[pc.ino] == env.jobs(pc.ino.p).bytes
    ensures p in s'.procs && Outcome(env, p, pc, a, s'.procs[p])
  {
  }

  function AfterPublish(phase: Phase): Pc { if phase.Obj? then Committed else Returned(true) }

  lemma {:induction false} OthersKeepPc(env: Env, s: State, events: seq<Event>, s': State, p: Pid)
    requires ValidEnv(env) && Inv(env, s) && Run(env, s, events) == Some(s')
    requires forall e | e in events :: e.p != p
    ensures p in s'.procs <==> p in s.procs
    ensures p in s.procs ==> s'.procs[p] == s.procs[p]
  {
    if events != [] {
      var e := events[|events| - 1];
      var before := Run(env, s, events[..|events| - 1]).value;
      OthersKeepPc(env, s, events[..|events| - 1], before, p);
      InvRun(env, s, events[..|events| - 1], before);
      InvStep(env, before, e.p, e.action, s');
    }
  }
}
