/** Audit receipts: `validate_audit_receipt` and `validate_audit_receipt_against_topology`. */
module AuditReceipt {
  import opened Lists
  import opened PredecessorGraph
  import opened AuditTopology
  import Text

  datatype RunRef = RunRef(runId: string, recordDigest: string)
  datatype TopologyRef = TopologyRef(topologyId: string, topologyDigest: string)
  datatype RecordedRun = RecordedRun(stepId: string, planRef: PlanRef, runRef: RunRef)
  datatype Receipt = Receipt(schemaVersion: string, topologyRef: TopologyRef, runs: seq<RecordedRun>)

  predicate ValidRunRef(r: RunRef) {
    Text.IsPrefixedId(r.runId, "run_") && Text.IsSha256(r.recordDigest)
  }

  predicate ValidRun(r: RecordedRun) {
    Text.IsPrefixedId(r.stepId, "step_") && Text.IsPrefixedId(r.planRef.planId, "plan_") &&
    Text.IsSha256(r.planRef.recordDigest) && ValidRunRef(r.runRef)
  }

  function StepIds(runs: seq<RecordedRun>): seq<string> {
    seq(|runs|, i requires 0 <= i < |runs| => runs[i].stepId)
  }

  function PlanIdsOf(runs: seq<RecordedRun>): seq<string> {
    seq(|runs|, i requires 0 <= i < |runs| => runs[i].planRef.planId)
  }

  function RunIds(runs: seq<RecordedRun>): seq<string> {
    seq(|runs|, i requires 0 <= i < |runs| => runs[i].runRef.runId)
  }

  predicate WellFormedReceipt(r: Receipt) {
    && r.schemaVersion == "audit-receipt/v1" && Text.IsPrefixedId(r.topologyRef.topologyId, "topology_")
    && Text.IsSha256(r.topologyRef.topologyDigest) && r.runs != []
    && (forall i | 0 <= i < |r.runs| :: ValidRun(r.runs[i]))
    && Increasing(StepIds(r.runs)) && NoRepeats(PlanIdsOf(r.runs)) && NoRepeats(RunIds(r.runs))
  }

  /** The loop over the recorded runs, with its three sets of seen identifiers. */
  method ValidateAuditReceipt(r: Receipt) returns (ok: bool)
    ensures ok <==> WellFormedReceipt(r)
  {
    hide Text.IsPrefixedId, Text.IsSha256, Text.StrLess, SeenUpTo;
    if r.schemaVersion != "audit-receipt/v1" || !Text.IsPrefixedId(r.topologyRef.topologyId, "topology_") ||
       !Text.IsSha256(r.topologyRef.topologyDigest) || r.runs == [] {
      return false;
    }
    var stepIds: set<string>, planIds: set<string>, runIds: set<string> := {}, {}, {};
    ghost var steps, plans, runs := StepIds(r.runs), PlanIdsOf(r.runs), RunIds(r.runs);
    NothingSeen(steps);
    NothingSeen(plans);
    NothingSeen(runs);
    for i := 0 to |r.runs|
      invariant SeenUpTo(steps, i, stepIds) && SeenUpTo(plans, i, planIds) && SeenUpTo(runs, i, runIds)
      invariant forall j | 0 <= j < i :: ValidRun(r.runs[j])
      invariant Increasing(steps[..i]) && NoRepeats(plans[..i]) && NoRepeats(runs[..i])
    {
      var run := r.runs[i];
      SeeName(steps, i, stepIds);
      SeeName(plans, i, planIds);
      SeeName(runs, i, runIds);
      if !Text.IsPrefixedId(run.stepId, "step_") { return false; }
      if i > 0 && !Text.StrLess(r.runs[i - 1].stepId, run.stepId) {
        assert !Text.StrLess(steps[i - 1], steps[i - 1 + 1]);
        return false;
      }
      // Ordered identifiers are distinct, so this test cannot fail.
      OrderedIsNew(steps, i);
      assert run.stepId !in stepIds;
      stepIds := stepIds + {run.stepId};
      if !Text.IsPrefixedId(run.planRef.planId, "plan_") || !Text.IsSha256(run.planRef.recordDigest) { return false; }
      if run.planRef.planId in planIds {
        Repeats(plans, i);
        return false;
      }
      planIds := planIds + {run.planRef.planId};
      if !Text.IsPrefixedId(run.runRef.runId, "run_") || !Text.IsSha256(run.runRef.recordDigest) { return false; }
      if run.runRef.runId in runIds {
        Repeats(runs, i);
        return false;
      }
      runIds := runIds + {run.runRef.runId};
    }
    assert steps[..|r.runs|] == steps && plans[..|r.runs|] == plans && runs[..|r.runs|] == runs;
    return true;
  }

  lemma OrderedIsNew(names: seq<string>, i: nat)
    requires i < |names| && Increasing(names[..i]) && (i > 0 ==> Text.StrLess(names[i - 1], names[i]))
    ensures Increasing(names[..i + 1]) && forall j | 0 <= j < i :: names[j] != names[i]
  {
    hide Text.StrLess;
    var longer, front := names[..i + 1], names[..i];
    forall j | 0 <= j < |longer| - 1
      ensures Text.StrLess(longer[j], longer[j + 1])
    {
      if j < i - 1 { assert Text.StrLess(front[j], front[j + 1]); }
    }
    IncreasingHasNoRepeats(longer);
    assert forall j | 0 <= j < i :: longer[j] == names[j];
    assert longer[i] == names[i];
  }

  lemma Repeats(names: seq<string>, i: nat)
    requires i < |names| && exists j :: 0 <= j < i && names[j] == names[i]
    ensures !NoRepeats(names)
  {
  }

  // ----- a receipt and its topology -----

  predicate PlacedAt(run: RecordedRun, step: Step) {
    run.stepId == step.stepId && run.planRef == step.planRef
  }

  // Run `i` is recorded for step `at[i]`, in the order of the steps.
  predicate Placed(runs: seq<RecordedRun>, steps: seq<Step>, at: seq<nat>) {
    && |at| == |runs|
    && (forall i | 0 <= i < |at| :: at[i] < |steps| && PlacedAt(runs[i], steps[at[i]]))
    && forall i, j | 0 <= i < j < |at| :: at[i] < at[j]
  }

  /** The recorded runs are a part of the topology: some of its steps, in its order, with its plan references. */
  ghost predicate IsPart(runs: seq<RecordedRun>, steps: seq<Step>) {
    exists at: seq<nat> :: Placed(runs, steps, at)
  }

  predicate Known(run: RecordedRun, steps: seq<Step>) {
    exists i: nat :: i < |steps| && PlacedAt(run, steps[i])
  }

  lemma StepsInOrder(steps: seq<Step>, i: nat, j: nat)
    requires IncreasingIds(steps) && i < j < |steps|
    ensures Text.StrLess(steps[i].stepId, steps[j].stepId)
  {
    hide Text.StrLess;
    var ids := Ids(steps);
    forall k | 0 <= k < |ids| - 1
      ensures Text.StrLess(ids[k], ids[k + 1])
    {
      assert IdBefore(steps, k);
    }
    IncreasingOrders(ids, i, j);
  }

  lemma LessIsBefore(steps: seq<Step>, i: nat, j: nat)
    requires IncreasingIds(steps) && i < |steps| && j < |steps| && Text.StrLess(steps[i].stepId, steps[j].stepId)
    ensures i < j
  {
    hide Text.StrLess, IncreasingIds;
    if j <= i {
      if j < i {
        StepsInOrder(steps, j, i);
        Text.StrTransitive(steps[i].stepId, steps[j].stepId, steps[i].stepId);
      }
      Text.StrTotal(steps[i].stepId, steps[i].stepId);
    }
  }

  lemma FrontIncreases(runs: seq<RecordedRun>, n: nat)
    requires n <= |runs| && Increasing(StepIds(runs))
    ensures Increasing(StepIds(runs[..n]))
  {
    hide Text.StrLess;
    var ids, front := StepIds(runs), StepIds(runs[..n]);
    forall i | 0 <= i < |front| - 1
      ensures Text.StrLess(front[i], front[i + 1])
    {
      assert Text.StrLess(ids[i], ids[i + 1]);
    }
  }

  lemma {:induction false} PlaceRuns(runs: seq<RecordedRun>, steps: seq<Step>) returns (at: seq<nat>)
    requires IncreasingIds(steps) && Increasing(StepIds(runs)) && forall run | run in runs :: Known(run, steps)
    ensures Placed(runs, steps, at)
  {
    hide Text.StrLess, IncreasingIds;
    if runs == [] {
      at := [];
    } else {
      var n := |runs| - 1;
      FrontIncreases(runs, n);
      var front := PlaceRuns(runs[..n], steps);
      assert runs[n] in runs;
      var last: nat :| last < |steps| && PlacedAt(runs[n], steps[last]);
      at := front + [last];
      if n > 0 {
        assert Text.StrLess(StepIds(runs)[n - 1], StepIds(runs)[n - 1 + 1]);
        assert PlacedAt(runs[..n][n - 1], steps[front[n - 1]]);
        LessIsBefore(steps, front[n - 1], last);
      }
    }
  }

  /** Against a well-formed topology, the order test and the look-ups together hold exactly for a part of it, whose
      plans are then distinct as the topology's are. */
  lemma PartIff(runs: seq<RecordedRun>, t: Topology)
    requires WellFormed(t)
    ensures IsPart(runs, t.steps) <==> Increasing(StepIds(runs)) && forall run | run in runs :: Known(run, t.steps)
    ensures IsPart(runs, t.steps) ==> NoRepeats(PlanIdsOf(runs))
  {
    hide Text.StrLess, IncreasingIds, ValidStep, ReferencesKnown;
    if Increasing(StepIds(runs)) && forall run | run in runs :: Known(run, t.steps) {
      var at := PlaceRuns(runs, t.steps);
    }
    if IsPart(runs, t.steps) {
      var at: seq<nat> :| Placed(runs, t.steps, at);
      forall i | 0 <= i < |runs| - 1
        ensures Text.StrLess(StepIds(runs)[i], StepIds(runs)[i + 1])
      {
        StepsInOrder(t.steps, at[i], at[i + 1]);
        assert PlacedAt(runs[i], t.steps[at[i]]) && PlacedAt(runs[i + 1], t.steps[at[i + 1]]);
      }
      forall run | run in runs
        ensures Known(run, t.steps)
      {
        var i :| 0 <= i < |runs| && runs[i] == run;
        assert PlacedAt(run, t.steps[at[i]]);
      }
      forall i, j | 0 <= i < j < |runs|
        ensures PlanIdsOf(runs)[i] != PlanIdsOf(runs)[j]
      {
        assert PlacedAt(runs[i], t.steps[at[i]]) && PlacedAt(runs[j], t.steps[at[j]]);
      }
    }
  }

  /** What a receipt accepted against a topology is: it names the accepted topology and its digest, and records, with
      distinct runs, a part of its steps. */
  ghost predicate RecordsPart(r: Receipt, t: Topology, digest: string) {
    && WellFormed(t) && !HasCycle(GraphOf(t.steps))
    && r.schemaVersion == "audit-receipt/v1" && r.topologyRef == TopologyRef(t.topologyId, digest) &&
        Text.IsSha256(digest)
    && r.runs != [] && (forall run | run in r.runs :: ValidRunRef(run.runRef)) && NoRepeats(RunIds(r.runs))
    && IsPart(r.runs, t.steps)
  }

  lemma AcceptedIsPart(r: Receipt, t: Topology, digest: string)
    requires WellFormed(t) && !HasCycle(GraphOf(t.steps))
    ensures RecordsPart(r, t, digest) <==>
            WellFormedReceipt(r) && r.topologyRef == TopologyRef(t.topologyId, digest) &&
            forall run | run in r.runs :: Known(run, t.steps)
  {
    PartIff(r.runs, t);
    hide Text.StrLess, Text.IsPrefixedId, Text.IsSha256, HasCycle, IsPart, Increasing, NoRepeats, IncreasingIds,
      DistinctPlans, ReferencesKnown;
    if RecordsPart(r, t, digest) {
      forall i | 0 <= i < |r.runs|
        ensures ValidRun(r.runs[i])
      {
        assert r.runs[i] in r.runs && Known(r.runs[i], t.steps);
        var k: nat :| k < |t.steps| && PlacedAt(r.runs[i], t.steps[k]);
        assert ValidStep(t.steps[k]);
      }
    } else if WellFormedReceipt(r) {
      forall run | run in r.runs
        ensures ValidRunRef(run.runRef)
      {
        var i :| 0 <= i < |r.runs| && r.runs[i] == run;
        assert ValidRun(r.runs[i]);
      }
    }
  }

  // The look-up map of the steps by their identifiers.
  method StepsById(steps: seq<Step>) returns (byId: map<string, Step>)
    requires NoRepeats(Ids(steps))
    ensures forall i | 0 <= i < |steps| :: steps[i].stepId in byId && byId[steps[i].stepId] == steps[i]
    ensures forall id | id in byId :: byId[id] in steps && byId[id].stepId == id
  {
    byId := map[];
    for i := 0 to |steps|
      invariant forall j | 0 <= j < i :: steps[j].stepId in byId && byId[steps[j].stepId] == steps[j]
      invariant forall id | id in byId :: byId[id] in steps && byId[id].stepId == id
    {
      forall j | 0 <= j < i
        ensures steps[j].stepId != steps[i].stepId
      {
        assert Ids(steps)[j] != Ids(steps)[i];
      }
      byId := byId[steps[i].stepId := steps[i]];
    }
  }

  /** `validate_audit_receipt_against_topology` accepts exactly the receipts that record a part of the topology. */
  method ValidateAgainstTopology(r: Receipt, t: Topology, digest: string) returns (ok: bool)
    ensures ok <==> RecordsPart(r, t, digest)
  {
    hide WellFormed, HasCycle, WellFormedReceipt, Text.IsSha256, NoRepeats, IsPart, ValidRunRef;
    var topology := ValidateAuditTopology(t);
    if !topology { return false; }
    AcceptedIsPart(r, t, digest);
    var receipt := ValidateAuditReceipt(r);
    if !receipt { return false; }
    if r.topologyRef.topologyId != t.topologyId || r.topologyRef.topologyDigest != digest { return false; }
    WellFormedGraph(t);
    var byId := StepsById(t.steps);
    for i := 0 to |r.runs|
      invariant forall j | 0 <= j < i :: Known(r.runs[j], t.steps)
    {
      var run := r.runs[i];
      KnownIff(run, t.steps, byId);
      assert run in r.runs;
      if run.stepId !in byId { return false; }
      if run.planRef != byId[run.stepId].planRef { return false; }
    }
    return true;
  }

  lemma KnownIff(run: RecordedRun, steps: seq<Step>, byId: map<string, Step>)
    requires forall i | 0 <= i < |steps| :: steps[i].stepId in byId && byId[steps[i].stepId] == steps[i]
    requires forall id | id in byId :: byId[id] in steps && byId[id].stepId == id
    ensures Known(run, steps) <==> run.stepId in byId && byId[run.stepId].planRef == run.planRef
  {
    if run.stepId in byId && byId[run.stepId].planRef == run.planRef {
      var i :| 0 <= i < |steps| && steps[i] == byId[run.stepId];
      assert PlacedAt(run, steps[i]);
    }
  }
}
