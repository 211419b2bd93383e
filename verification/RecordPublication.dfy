/** The registry records other than artifact records, written by concurrent processes: `write_json_atomic` with its
    `publish_file_no_replace`, as a step system. */
module RecordPublication {
  import opened Wrappers
  import opened Bytes

  type Pid = nat

  // Staged executables are linked and unlinked alike, but a failed unlink is not rolled back. A process that stops for
  // ever at `RollingBack` stands for that: its file keeps two links and cannot be read.
  datatype Registry = Plans | Runs | Handoffs | Qualifications | Capsules | Inventories | Admissions |
    Staged

  // The name of a record file: its registry and its identifier.
  datatype Path = Path(registry: Registry, id: string)

  // A process writes one record.
  datatype Job = Job(path: Path, text: seq<byte>)

  datatype Env = Env(jobs: Pid -> Job)

  // What a process is about to do; `attempt` counts the tries of `retry_transient`.
  datatype Pc =
    | Writing(done: nat)
    | Publishing(attempt: nat)
    | Linked(attempt: nat)
    | RollingBack(attempt: nat, transient: bool)
    | Discarding(attempt: nat)
    | Returned(ok: bool)

  // A file is identified by the process that created it.
  datatype State = State(names: map<Path, Pid>, temps: set<Pid>, files: map<Pid, seq<byte>>, procs: map<Pid, Pc>)

  datatype Action =
    | Start
    | WriteChunk(n: nat)
    | Close
    | WriteFault
    | Link
    | LinkFault(transient: bool)
    | Unlink
    | UnlinkFault(transient: bool)
    | Rollback
    | RollbackFault
    | Discard
    | DiscardFault(transient: bool)

  datatype Event = Event(p: Pid, action: Action)

  const INIT := State(map[], {}, map[], map[])
  const MAX_ATTEMPT := 24

  function Goto(s: State, p: Pid, pc: Pc): State {
    s.(procs := s.procs[p := pc])
  }

  function Retry(attempt: nat, transient: bool): Pc {
    if transient && attempt < MAX_ATTEMPT then Publishing(attempt + 1) else Discarding(0)
  }

  /** The state after process `p` performs `a`, or None if it is not about to perform it. */
  function Step(env: Env, s: State, p: Pid, a: Action): Option<State> {
    if a.Start? then
      if p in s.procs then None
      else Some(Goto(s.(temps := s.temps + {p}, files := s.files[p := []]), p, Writing(0)))
    else if p !in s.procs then None
    else
      var path, text := env.jobs(p).path, env.jobs(p).text;
      match (s.procs[p], a)
      case (Writing(done), WriteChunk(n)) =>
        if 0 < n && done + n <= |text|
        then Some(Goto(s.(files := s.files[p := text[..done + n]]), p, Writing(done + n)))
        else None
      case (Writing(done), Close) => if done == |text| then Some(Goto(s, p, Publishing(0))) else None
      case (Writing(_), WriteFault) => Some(Goto(s, p, Returned(false)))
      case (Publishing(k), Link) =>
        if path in s.names then Some(Goto(s, p, Discarding(0)))
        else Some(Goto(s.(names := s.names[path := p]), p, Linked(k)))
      case (Publishing(k), LinkFault(transient)) => Some(Goto(s, p, Retry(k, transient)))
      case (Linked(_), Unlink) => Some(Goto(s.(temps := s.temps - {p}), p, Returned(true)))
      case (Linked(k), UnlinkFault(transient)) => Some(Goto(s, p, RollingBack(k, transient)))
      case (RollingBack(k, transient), Rollback) =>
        Some(Goto(s.(names := s.names - {path}), p, Retry(k, transient)))
      case (RollingBack(_, _), RollbackFault) => Some(Goto(s, p, Discarding(0)))
      case (Discarding(_), Discard) => Some(Goto(s.(temps := s.temps - {p}), p, Returned(false)))
      case (Discarding(k), DiscardFault(transient)) =>
        Some(Goto(s, p, if transient && k < MAX_ATTEMPT then Discarding(k + 1) else Returned(false)))
      case _ => None
  }

  function Run(env: Env, start: State, events: seq<Event>): Option<State> {
    if events == [] then Some(start)
    else
      match Run(env, start, events[..|events| - 1])
      case None => None
      case Some(s) => var e := events[|events| - 1]; Step(env, s, e.p, e.action)
  }

  lemma {:induction false} RunsCompose(env: Env, start: State, first: seq<Event>, s: State, more: seq<Event>, s': State)
    requires Run(env, start, first) == Some(s) && Run(env, s, more) == Some(s')
    ensures Run(env, start, first + more) == Some(s')
  {
    hide Step;
    var all := first + more;
    if more == [] {
      assert all == first;
    } else {
      assert all[..|all| - 1] == first + more[..|more| - 1];
      RunsCompose(env, start, first, s, more[..|more| - 1], Run(env, s, more[..|more| - 1]).value);
    }
  }

  // ----- the invariant -----

  predicate Owns(env: Env, s: State, p: Pid) {
    env.jobs(p).path in s.names && s.names[env.jobs(p).path] == p
  }

  predicate IsComplete(env: Env, s: State, p: Pid) {
    p in s.files && s.files[p] == env.jobs(p).text
  }

  ghost predicate NameOk(env: Env, s: State, path: Path)
    requires path in s.names
  {
    var q := s.names[path];
    q in s.procs && !s.procs[q].Writing? && env.jobs(q).path == path && IsComplete(env, s, q)
  }

  ghost predicate ProcOk(env: Env, s: State, p: Pid)
    requires p in s.procs
  {
    match s.procs[p]
    case Writing(done) =>
      !Owns(env, s, p) && p in s.temps && p in s.files && done <= |env.jobs(p).text| &&
      s.files[p] == env.jobs(p).text[..done]
    case Publishing(_) => !Owns(env, s, p) && IsComplete(env, s, p) && p in s.temps
    case Linked(_) => Owns(env, s, p) && p in s.temps
    case RollingBack(_, _) => Owns(env, s, p) && p in s.temps
    case Discarding(_) => true
    case Returned(ok) => ok ==> Owns(env, s, p) && p !in s.temps
  }

  ghost predicate Inv(env: Env, s: State) {
    (forall path | path in s.names :: NameOk(env, s, path)) && forall p | p in s.procs :: ProcOk(env, s, p)
  }

  // What a step of `p` leaves alone.
  ghost predicate Leaves(env: Env, s: State, p: Pid, s': State) {
    && p in s'.procs
    && (forall q | q != p && q in s'.procs :: q in s.procs && s'.procs[q] == s.procs[q])
    && (forall q | q != p && q in s.procs :: q in s'.procs)
    && (forall q | q != p :: q in s'.temps <==> q in s.temps)
    && (forall q | q != p && q in s.files :: q in s'.files && s'.files[q] == s.files[q])
    && (forall path | path in s.names && s.names[path] != p :: path in s'.names && s'.names[path] == s.names[path])
    && (forall path | path in s'.names && s'.names[path] != p :: path in s.names && s.names[path] == s'.names[path])
  }

  // What a step does to the record of the process that takes it.
  ghost predicate Acts(env: Env, s: State, p: Pid, s': State)
    requires p in s'.procs
  {
    && (forall path | path in s'.names && s'.names[path] == p :: path == env.jobs(p).path)
    && (Owns(env, s', p) ==> !s'.procs[p].Writing? && IsComplete(env, s', p))
    && (Owns(env, s, p) && p !in s.temps ==> Owns(env, s', p))
    && (p in s.procs && p in s'.temps ==> p in s.temps)
    && ProcOk(env, s', p)
  }

  lemma StepLeaves(env: Env, s: State, p: Pid, a: Action, s': State)
    requires Inv(env, s) && Step(env, s, p, a) == Some(s')
    ensures Leaves(env, s, p, s')
  {
    if p in s.procs { assert ProcOk(env, s, p); }
    if env.jobs(p).path in s.names { assert NameOk(env, s, env.jobs(p).path); }
  }

  lemma StepActs(env: Env, s: State, p: Pid, a: Action, s': State)
    requires Inv(env, s) && Step(env, s, p, a) == Some(s')
    ensures p in s'.procs && Acts(env, s, p, s')
  {
    if p in s.procs { assert ProcOk(env, s, p); }
    forall path | path in s.names && s.names[path] == p
      ensures path == env.jobs(p).path && p in s.procs && !s.procs[p].Writing? && IsComplete(env, s, p)
    {
      assert NameOk(env, s, path);
    }
  }

  lemma NameStaysOk(env: Env, s: State, p: Pid, s': State, path: Path)
    requires Leaves(env, s, p, s') && Acts(env, s, p, s') && path in s'.names
    requires path in s.names ==> NameOk(env, s, path)
    ensures NameOk(env, s', path)
  {
    hide ProcOk;
  }

  lemma OtherStaysOk(env: Env, s: State, p: Pid, s': State, q: Pid)
    requires Leaves(env, s, p, s') && q in s'.procs && q != p
    requires q in s.procs ==> ProcOk(env, s, q)
    ensures ProcOk(env, s', q)
  {
    var path := env.jobs(q).path;
    assert Owns(env, s', q) ==> path in s.names;
    assert path in s.names && s.names[path] != p ==> path in s'.names;
  }

  lemma InvStep(env: Env, s: State, p: Pid, a: Action, s': State)
    requires Inv(env, s) && Step(env, s, p, a) == Some(s')
    ensures Inv(env, s') && Leaves(env, s, p, s') && Acts(env, s, p, s')
  {
    StepLeaves(env, s, p, a, s');
    StepActs(env, s, p, a, s');
    hide Step, NameOk, ProcOk, Leaves;
    forall path | path in s'.names
      ensures NameOk(env, s', path)
    {
      NameStaysOk(env, s, p, s', path);
    }
    forall q | q in s'.procs
      ensures ProcOk(env, s', q)
    {
      if q != p { OtherStaysOk(env, s, p, s', q); }
    }
  }

  lemma {:induction false} InvRun(env: Env, start: State, events: seq<Event>, s: State)
    requires Inv(env, start) && Run(env, start, events) == Some(s)
    ensures Inv(env, s)
  {
    hide Inv, Step;
    if events != [] {
      var e := events[|events| - 1];
      var before := Run(env, start, events[..|events| - 1]).value;
      InvRun(env, start, events[..|events| - 1], before);
      InvStep(env, before, e.p, e.action, s);
    }
  }

  // ----- main results -----

  /** The record files that can be read: a reader refuses a file that still has its temporary name. */
  function Table(s: State): map<Path, seq<byte>> {
    map path | path in s.names && s.names[path] in s.files && s.names[path] !in s.temps :: s.files[s.names[path]]
  }

  /** In every run, whatever fails, a record name denotes the complete text of one process's record of that name. */
  lemma NamesDenoteWholeRecords(env: Env, events: seq<Event>, s: State, path: Path)
    requires Run(env, INIT, events) == Some(s) && path in s.names
    ensures env.jobs(s.names[path]).path == path
    ensures s.names[path] in s.files && s.files[s.names[path]] == env.jobs(s.names[path]).text
  {
    assert Inv(env, INIT);
    InvRun(env, INIT, events, s);
    hide Run;
    assert NameOk(env, s, path);
  }

  lemma TableStays(env: Env, s: State, p: Pid, a: Action, s': State, path: Path)
    requires Inv(env, s) && Step(env, s, p, a) == Some(s') && path in Table(s)
    ensures path in Table(s') && Table(s')[path] == Table(s)[path]
  {
    InvStep(env, s, p, a, s');
    hide Step;
    assert NameOk(env, s, path);
    if s.names[path] == p { assert Owns(env, s', p); }
    assert NameOk(env, s', path);
  }

  /** Whatever fails, a record that can be read is never replaced, changed or removed in any continuation: a rollback
      removes a name only while the file has two. */
  lemma {:induction false} RecordsAreWriteOnce(env: Env, s: State, events: seq<Event>, s': State, path: Path)
    requires Inv(env, s) && Run(env, s, events) == Some(s') && path in Table(s)
    ensures path in Table(s') && Table(s')[path] == Table(s)[path]
  {
    hide Inv, Step, Table;
    if events != [] {
      var e := events[|events| - 1];
      var before := Run(env, s, events[..|events| - 1]).value;
      InvRun(env, s, events[..|events| - 1], before);
      RecordsAreWriteOnce(env, s, events[..|events| - 1], before, path);
      TableStays(env, before, e.p, e.action, s', path);
    }
  }

  /** A write that returned success is in the table with its own text. */
  lemma SuccessIsInTheTable(env: Env, events: seq<Event>, s: State, p: Pid)
    requires Run(env, INIT, events) == Some(s) && p in s.procs && s.procs[p] == Returned(true)
    ensures env.jobs(p).path in Table(s) && Table(s)[env.jobs(p).path] == env.jobs(p).text
  {
    assert Inv(env, INIT);
    InvRun(env, INIT, events, s);
    hide Run;
    assert ProcOk(env, s, p);
    assert NameOk(env, s, env.jobs(p).path);
  }

  // ----- what a process alone does -----

  // From `s` the process reaches `s'` by calls of its own.
  ghost predicate Goes(env: Env, s: State, p: Pid, actions: seq<Action>, s': State) {
    Run(env, s, Events(p, actions)) == Some(s')
  }

  function Events(p: Pid, actions: seq<Action>): seq<Event> {
    seq(|actions|, i requires 0 <= i < |actions| => Event(p, actions[i]))
  }

  lemma GoesOn(env: Env, s: State, p: Pid, actions: seq<Action>, t: State, a: Action, s': State)
    requires Goes(env, s, p, actions, t) && Step(env, t, p, a) == Some(s')
    ensures Goes(env, s, p, actions + [a], s')
  {
    hide Step;
    var all := Events(p, actions + [a]);
    assert all[..|all| - 1] == Events(p, actions);
  }

  // The calls of a write that fails to link `faults` times, each time transiently.
  function Write(text: seq<byte>, faults: nat): seq<Action> {
    [Start] + (if text == [] then [] else [WriteChunk(|text|)]) + [Close] + seq(faults, _ => LinkFault(true))
  }

  // The temporary file is complete, and `attempt` tries to link it have failed.
  function Ready(env: Env, s: State, p: Pid, pc: Pc): State {
    State(s.names, s.temps + {p}, s.files[p := env.jobs(p).text], s.procs[p := pc])
  }

  lemma {:induction false} WriteIsReady(env: Env, s: State, p: Pid, faults: nat)
    requires p !in s.procs && faults <= 25
    ensures Goes(env, s, p, Write(env.jobs(p).text, faults),
                 Ready(env, s, p, if faults <= 24 then Publishing(faults) else Discarding(0)))
    decreases faults
  {
    hide Goes, Run;
    var text := env.jobs(p).text;
    if faults == 0 {
      CloseIsReady(env, s, p);
      assert Write(text, 0) == [Start] + (if text == [] then [] else [WriteChunk(|text|)]) + [Close];
    } else {
      WriteIsReady(env, s, p, faults - 1);
      var pc := if faults <= 24 then Publishing(faults) else Discarding(0);
      assert Ready(env, s, p, pc) == Goto(Ready(env, s, p, Publishing(faults - 1)), p, pc);
      GoesOn(env, s, p, Write(text, faults - 1), Ready(env, s, p, Publishing(faults - 1)), LinkFault(true),
             Ready(env, s, p, pc));
      assert Write(text, faults - 1) + [LinkFault(true)] == Write(text, faults);
    }
  }

  lemma CloseIsReady(env: Env, s: State, p: Pid)
    requires p !in s.procs
    ensures var text := env.jobs(p).text;
      Goes(env, s, p, [Start] + (if text == [] then [] else [WriteChunk(|text|)]) + [Close],
           Ready(env, s, p, Publishing(0)))
  {
    hide Goes;
    var text := env.jobs(p).text;
    assert Goes(env, s, p, [], s) by { GoesNowhere(env, s, p); }
    var t := Goto(s.(temps := s.temps + {p}, files := s.files[p := []]), p, Writing(0));
    GoesOn(env, s, p, [], s, Start, t);
    assert [] + [Start] == [Start] && [Start] + [] == [Start];
    if text != [] {
      var t' := Goto(t.(files := t.files[p := text[..|text|]]), p, Writing(|text|));
      GoesOn(env, s, p, [Start], t, WriteChunk(|text|), t');
      t := t';
      assert text[..|text|] == text;
    }
    assert Ready(env, s, p, Publishing(0)) == Goto(t, p, Publishing(0));
    GoesOn(env, s, p, [Start] + (if text == [] then [] else [WriteChunk(|text|)]), t, Close,
           Ready(env, s, p, Publishing(0)));
  }

  lemma GoesNowhere(env: Env, s: State, p: Pid)
    ensures Goes(env, s, p, [], s)
  {
    assert Events(p, []) == [];
  }

  /** A write whose calls succeed publishes its record exactly if the name is free: then the name denotes the whole text
      and the temporary name is gone; otherwise it fails and leaves every name alone. Up to 24 transient failures of the
      link change nothing of that. */
  lemma WriteCanFinish(env: Env, s: State, p: Pid, faults: nat) returns (actions: seq<Action>, s': State)
    requires p !in s.procs && p !in s.temps && faults <= 24
    ensures Goes(env, s, p, Write(env.jobs(p).text, faults) + [Link] + actions, s')
    ensures var path := env.jobs(p).path;
      s' == State(if path in s.names then s.names else s.names[path := p], s.temps, s.files[p := env.jobs(p).text],
                  s.procs[p := Returned(path !in s.names)])
  {
    hide Goes, Run;
    var path := env.jobs(p).path;
    var write, ready := Write(env.jobs(p).text, faults), Ready(env, s, p, Publishing(faults));
    WriteIsReady(env, s, p, faults);
    var t := if path in s.names then Ready(env, s, p, Discarding(0))
             else Goto(ready.(names := ready.names[path := p]), p, Linked(faults));
    assert path in s.names ==> t == Goto(ready, p, Discarding(0));
    GoesOn(env, s, p, write, ready, Link, t);
    s' := Goto(t.(temps := t.temps - {p}), p, Returned(path !in s.names));
    actions := [if path in s.names then Discard else Unlink];
    GoesOn(env, s, p, write + [Link], t, actions[0], s');
    assert s.temps + {p} - {p} == s.temps;
    assert s'.procs == s.procs[p := Returned(path !in s.names)];
  }

  lemma {:induction false} DiscardsFail(env: Env, s: State, p: Pid, faults: nat)
    requires p in s.procs && s.procs[p] == Discarding(0) && faults <= 25
    ensures Goes(env, s, p, seq(faults, _ => DiscardFault(true)),
                 Goto(s, p, if faults <= 24 then Discarding(faults) else Returned(false)))
    decreases faults
  {
    hide Goes, Run;
    if faults == 0 {
      GoesNowhere(env, s, p);
      assert Goto(s, p, Discarding(0)) == s;
      assert seq(0, _ => DiscardFault(true)) == [];
    } else {
      DiscardsFail(env, s, p, faults - 1);
      var pc := if faults <= 24 then Discarding(faults) else Returned(false);
      assert Goto(s, p, pc) == Goto(Goto(s, p, Discarding(faults - 1)), p, pc);
      GoesOn(env, s, p, seq(faults - 1, _ => DiscardFault(true)), Goto(s, p, Discarding(faults - 1)),
             DiscardFault(true), Goto(s, p, pc));
      assert seq(faults - 1, _ => DiscardFault(true)) + [DiscardFault(true)] == seq(faults, _ => DiscardFault(true));
    }
  }

  /** A write that gave up removes its temporary file unless 25 removals fail; in both cases it ends without success and
      leaves every name alone. */
  lemma DiscardCanFinish(env: Env, s: State, p: Pid, faults: nat) returns (s': State)
    requires p in s.procs && s.procs[p] == Discarding(0) && faults <= 25
    ensures Goes(env, s, p, seq(faults, _ => DiscardFault(true)) + (if faults <= 24 then [Discard] else []), s')
    ensures s' == State(s.names, if faults <= 24 then s.temps - {p} else s.temps, s.files,
                        s.procs[p := Returned(false)])
  {
    hide Goes, Run;
    DiscardsFail(env, s, p, faults);
    if faults <= 24 {
      var t := Goto(s, p, Discarding(faults));
      s' := Goto(t.(temps := t.temps - {p}), p, Returned(false));
      GoesOn(env, s, p, seq(faults, _ => DiscardFault(true)), t, Discard, s');
    } else {
      s' := Goto(s, p, Returned(false));
      assert seq(faults, _ => DiscardFault(true)) + [] == seq(faults, _ => DiscardFault(true));
    }
    assert s'.procs == s.procs[p := Returned(false)];
  }

  /** When the unlink behind a fresh name fails, the rollback takes the name back, and the write tries again if the
      failure was transient and fewer than 25 attempts were made; a rollback that fails leaves the name to a file with
      two links, and the write gives up. */
  lemma UnlinkFailureRollsBack(env: Env, s: State, p: Pid, attempt: nat, transient: bool, rolledBack: bool)
    returns (s': State)
    requires p in s.procs && s.procs[p] == Publishing(attempt) && env.jobs(p).path !in s.names
    ensures Goes(env, s, p, [Link, UnlinkFault(transient), if rolledBack then Rollback else RollbackFault], s')
    ensures s' == State(if rolledBack then s.names else s.names[env.jobs(p).path := p], s.temps, s.files,
                        s.procs[p := if rolledBack && transient && attempt <= 23 then Publishing(attempt + 1)
                                     else Discarding(0)])
  {
    hide Goes, Run;
    var path := env.jobs(p).path;
    GoesNowhere(env, s, p);
    var t := Goto(s.(names := s.names[path := p]), p, Linked(attempt));
    GoesOn(env, s, p, [], s, Link, t);
    var t' := Goto(t, p, RollingBack(attempt, transient));
    GoesOn(env, s, p, [] + [Link], t, UnlinkFault(transient), t');
    if rolledBack {
      s' := Goto(t'.(names := t'.names - {path}), p, Retry(attempt, transient));
      GoesOn(env, s, p, [] + [Link] + [UnlinkFault(transient)], t', Rollback, s');
      assert [] + [Link] + [UnlinkFault(transient)] + [Rollback] == [Link, UnlinkFault(transient), Rollback];
      assert s'.names == s.names;
    } else {
      s' := Goto(t', p, Discarding(0));
      GoesOn(env, s, p, [] + [Link] + [UnlinkFault(transient)], t', RollbackFault, s');
      assert [] + [Link] + [UnlinkFault(transient)] + [RollbackFault] == [Link, UnlinkFault(transient), RollbackFault];
    }
    assert s'.procs == s.procs[p := s'.procs[p]];
  }

  /** The 25th transient failure of the link ends the write without success. */
  lemma LastAttemptFails(env: Env, s: State, p: Pid) returns (s': State)
    requires p !in s.procs && p !in s.temps
    ensures Goes(env, s, p, Write(env.jobs(p).text, 25) + [Discard], s')
    ensures s' == State(s.names, s.temps, s.files[p := env.jobs(p).text], s.procs[p := Returned(false)])
  {
    hide Goes, Run;
    WriteIsReady(env, s, p, 25);
    var t := Ready(env, s, p, Discarding(0));
    s' := Goto(t.(temps := t.temps - {p}), p, Returned(false));
    GoesOn(env, s, p, Write(env.jobs(p).text, 25), t, Discard, s');
    assert s.temps + {p} - {p} == s.temps;
    assert s'.procs == s.procs[p := Returned(false)];
  }
}
