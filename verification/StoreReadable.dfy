/** A file that a reader accepts stays: one that its name denotes with a single link is never removed, replaced or
    changed, whatever any process does and whatever fails. */
module StoreReadable {
  import opened Wrappers
  import opened Bytes
  import opened ContentStore
  import opened StoreSafety

  /** A reader that opens the name finds one complete file with one link. */
  predicate Readable(s: State, n: Name) {
    n in s.names && s.names[n] in s.files && LinkCount(s.names, s.names[n]) == 1
  }

  /** The name denotes in `t` what it denotes in `s`, with the same bytes, and can be read. */
  ghost predicate StaysReadable(s: State, t: State, n: Name)
    requires Readable(s, n)
  {
    Readable(t, n) && t.names[n] == s.names[n] && t.files[t.names[n]] == s.files[s.names[n]]
  }

  lemma OwnTempStaysGone(env: Env, s: State, p: Pid, a: Action, s': State, phase: Phase)
    requires Step(env, s, p, a) == Some(s') && p in s.procs && env.jobs(p).Import?
    requires !MayWrite(s.procs[p], phase) && TempName(p, phase) !in s.names
    ensures TempName(p, phase) !in s'.names
  {
  }

  // A rollback removes a name only while its file has two.
  lemma ReadableStays(env: Env, s: State, p: Pid, a: Action, s': State, n: Name)
    requires ValidEnv(env) && Inv(env, s) && Step(env, s, p, a) == Some(s') && !n.TempName? && Readable(s, n)
    ensures StaysReadable(s, s', n)
  {
    InvStep(env, s, p, a, s');
    var ino := s.names[n];
    assert PublishedAs(env, s, ino, n);
    PublishedStays(env, s, s', p, ino);
    assert ino == Inode(ino.p, ino.phase);
    SingleName(env, s, ino.p, ino.phase);
    if ino.p == p { OwnTempStaysGone(env, s, p, a, s', ino.phase); }
    hide Step;
    assert ProcOk(env, s, ino.p);
    assert n in s'.names && KeptOrAdded(env, s, s', p, n);
    SingleName(env, s', ino.p, ino.phase);
  }

  lemma {:induction false} ReadableStaysInRun(env: Env, s: State, events: seq<Event>, s': State, n: Name)
    requires ValidEnv(env) && Inv(env, s) && Run(env, s, events) == Some(s') && !n.TempName? && Readable(s, n)
    ensures StaysReadable(s, s', n)
  {
    hide Step, Inv, ValidEnv, LinkCount;
    if events != [] {
      var e := events[|events| - 1];
      var before := Run(env, s, events[..|events| - 1]).value;
      ReadableStaysInRun(env, s, events[..|events| - 1], before, n);
      InvRun(env, s, events[..|events| - 1], before);
      ReadableStays(env, before, e.p, e.action, s', n);
    }
  }
}
