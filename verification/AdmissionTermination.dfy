/** When the verification of an admission ends, in any registry, and what it then decides in every larger one. */
module AdmissionTermination {
  import opened Wrappers
  import opened Lists
  import opened AdmissionPayload
  import opened AdmissionRegistry

  /** Following the citations from `id` leads to one record twice. */
  ghost predicate Revisits(env: Env, reg: Registry, id: string) {
    exists i: nat, j: nat :: i < j && Cited(env, reg, id, i).Some? && Cited(env, reg, id, i) == Cited(env, reg, id, j)
  }

  ghost predicate Ends(env: Env, reg: Registry, id: string) {
    exists n: nat :: !Verify(env, reg, id, n).StillRunning?
  }

  lemma {:induction false} CitedSplits(env: Env, reg: Registry, id: string, n: nat, m: nat)
    ensures Cited(env, reg, id, n + m) ==
            match Cited(env, reg, id, n) case None => None case Some(x) => Cited(env, reg, x, m)
    decreases n
  {
    hide LocallyValid;
    if n != 0 && id in reg.admissions && reg.admissions[id].payload.source.Some? {
      CitedSplits(env, reg, reg.admissions[id].payload.source.value.id, n - 1, m);
    }
    if n != 0 && id !in reg.admissions { NotStoredIsNotValid(env, reg, id); }
  }

  lemma NotStoredIsNotValid(env: Env, reg: Registry, id: string)
    ensures LocallyValid(env, reg, id) ==> id in reg.admissions
  {
  }

  // A chain has all its shorter beginnings, and every record that is left behind is stored.
  lemma CitedBefore(env: Env, reg: Registry, id: string, n: nat, m: nat)
    requires Cited(env, reg, id, n).Some? && m < n
    ensures Cited(env, reg, id, m).Some? && Cited(env, reg, id, m).value in reg.admissions
  {
    CitedSplits(env, reg, id, m, n - m);
    if Cited(env, reg, id, m).Some? { NotStoredIsNotValid(env, reg, Cited(env, reg, id, m).value); }
  }

  // A chain that comes back goes on for ever.
  lemma {:induction false} CycleGoesOn(env: Env, reg: Registry, id: string, i: nat, j: nat, n: nat)
    requires i < j && Cited(env, reg, id, i).Some? && Cited(env, reg, id, i) == Cited(env, reg, id, j)
    ensures Cited(env, reg, id, n).Some?
    decreases n
  {
    hide Cited;
    if n < j {
      CitedBefore(env, reg, id, j, n);
    } else {
      CycleGoesOn(env, reg, id, i, j, n - (j - i));
      CitedSplits(env, reg, id, j, n - j);
      CitedSplits(env, reg, id, i, n - j);
    }
  }

  // A chain longer than the registry comes back.
  lemma LongChainRevisits(env: Env, reg: Registry, id: string)
    requires Cited(env, reg, id, |reg.admissions| + 1).Some?
    ensures Revisits(env, reg, id)
  {
    hide Cited;
    var n := |reg.admissions| + 1;
    forall m: nat | m < n
      ensures Cited(env, reg, id, m).Some? && Cited(env, reg, id, m).value in reg.admissions
    {
      CitedBefore(env, reg, id, n, m);
    }
    var chain := seq(n, m requires 0 <= m < n => Cited(env, reg, id, m).value);
    if NoRepeats(chain) {
      assert |reg.admissions.Keys| == |reg.admissions|;
      NoRepeatsFits(chain, reg.admissions.Keys);
    }
    var i, j :| 0 <= i < j < |chain| && chain[i] == chain[j];
    assert Cited(env, reg, id, i) == Cited(env, reg, id, j);
  }

  /** In any registry, sound or not, verification ends if and only if the citations never come back to a record; and if
      it ends, it ends within one nested call more than there are records. */
  lemma EndsIffNoRevisit(env: Env, reg: Registry, id: string)
    ensures Ends(env, reg, id) <==> !Revisits(env, reg, id)
    ensures Ends(env, reg, id) <==> !Verify(env, reg, id, |reg.admissions| + 1).StillRunning?
  {
    hide Cited, Verify;
    var bound := |reg.admissions| + 1;
    RunningIffCited(env, reg, id, bound);
    if Revisits(env, reg, id) {
      var i: nat, j: nat :| i < j && Cited(env, reg, id, i).Some? && Cited(env, reg, id, i) == Cited(env, reg, id, j);
      forall n: nat
        ensures Verify(env, reg, id, n).StillRunning?
      {
        CycleGoesOn(env, reg, id, i, j, n);
        RunningIffCited(env, reg, id, n);
      }
    } else if Cited(env, reg, id, bound).Some? {
      LongChainRevisits(env, reg, id);
    }
  }

  /** What `load_verified` answers, where it answers: enough calls for every verification that ends. */
  predicate Accepts(env: Env, reg: Registry, id: string) {
    Verify(env, reg, id, |reg.admissions| + 1).Accepted?
  }

  lemma {:induction false} MoreFuel(env: Env, reg: Registry, id: string, fuel: nat, more: nat)
    requires !Verify(env, reg, id, fuel).StillRunning? && fuel <= more
    ensures Verify(env, reg, id, more) == Verify(env, reg, id, fuel)
    decreases fuel
  {
    hide LocallyValid, CitationHolds;
    NotStoredIsNotValid(env, reg, id);
    if LocallyValid(env, reg, id) && reg.admissions[id].payload.source.Some? {
      MoreFuel(env, reg, reg.admissions[id].payload.source.value.id, fuel - 1, more - 1);
    }
  }

  /** Every verification that ends gives the one answer, whatever the number of calls allowed. */
  lemma AnswerIsOne(env: Env, reg: Registry, id: string, fuel: nat)
    requires !Verify(env, reg, id, fuel).StillRunning?
    ensures Verify(env, reg, id, fuel).Accepted? <==> Accepts(env, reg, id)
  {
    hide Verify;
    EndsIffNoRevisit(env, reg, id);
    if fuel <= |reg.admissions| + 1 {
      MoreFuel(env, reg, id, fuel, |reg.admissions| + 1);
    } else {
      MoreFuel(env, reg, id, |reg.admissions| + 1, fuel);
    }
  }

  // ----- larger registries -----

  ghost predicate Grown(reg: Registry, next: Registry) {
    && (forall id | id in reg.inventories :: id in next.inventories && next.inventories[id] == reg.inventories[id])
    && (forall id | id in reg.admissions :: id in next.admissions && next.admissions[id] == reg.admissions[id])
  }

  lemma ValidStays(env: Env, reg: Registry, next: Registry, id: string)
    requires Grown(reg, next) && LocallyValid(env, reg, id)
    ensures LocallyValid(env, next, id) && next.admissions[id] == reg.admissions[id]
  {
    hide Admissible;
  }

  lemma {:induction false} AcceptedStays(env: Env, reg: Registry, next: Registry, id: string, fuel: nat)
    requires Grown(reg, next) && Verify(env, reg, id, fuel).Accepted?
    ensures Verify(env, next, id, fuel).Accepted?
    decreases fuel
  {
    hide LocallyValid, CitationHolds;
    NotStoredIsNotValid(env, reg, id);
    assert LocallyValid(env, reg, id);
    ValidStays(env, reg, next, id);
    var source := reg.admissions[id].payload.source;
    if source.Some? {
      AcceptedStays(env, reg, next, source.value.id, fuel - 1);
    }
  }

  /** A record that verifies, in any registry, verifies in every registry that keeps what was stored. */
  lemma AcceptsStays(env: Env, reg: Registry, next: Registry, id: string)
    requires Grown(reg, next) && Accepts(env, reg, id)
    ensures Accepts(env, next, id) && id in reg.admissions && next.admissions[id] == reg.admissions[id]
  {
    hide Verify;
    AcceptedStays(env, reg, next, id, |reg.admissions| + 1);
    AnswerIsOne(env, next, id, |reg.admissions| + 1);
  }
}
